# Verified model of the learning platform's services

This project models the stateful core of the learning-platform backend in Dafny 4.11 and
proves what its calls promise, over every input and every run of calls. `dafny verify
dfyconfig.toml` checks all of it.

The backend's services are step machines over database tables. Each service is modelled
twice. A module of functions (`QuizStore`, `Submissions`, `AuthStore`,
`CommunicationStore`) says what one call does to the tables and reports; runs are
sequences of such calls, and the theorems about all runs are lemmas over them. A class
with the tables as its field (`Assessment`, `SubmissionService`, `AuthService`,
`CommunicationService`) follows the source's own statements and loops, and each method is
proved to leave exactly the tables, and return exactly the result, that the function says,
and to keep the invariant. What the functions themselves mean is stated in the `Laws`
modules without them, in terms of requests, rows and fields: which request is refused for
which reason, what is found on reading back, and who may change or see what. Algorithms without state (grading, the gradebook join, the
transcript fold, the curriculum view, the permission listing, the PDF bytes) are methods
proved against independent specifications: set equality, a nested scan, a maximum, a
projection, and for the certificate file a random-access reader that follows ISO
32000-1:2008. That reader is general where the format's numbers are concerned: the search
for startxref, the table and its 20-byte entries, the jump to an object, /Length and
literal strings. Dictionaries and content operators it expects in the layout the writer
uses; it is no parser for other files.

| file | contents |
|---|---|
| `Common.dfy`, `Decimal.dfy`, `Enrollments.dfy` | results and errors, trimming, pigeonhole; decimal numerals; enrollment listings |
| `PdfWriter.dfy`, `PdfReader.dfy`, `PdfRoundTrip.dfy`, `Certificate.dfy` | certificate writer, the reader, what the reader recovers, which field stands where |
| `Positions.dfy` | ordered child rows and how they are reordered |
| `Grading.dfy` | question validation, grading, percentages |
| `QuizStore.dfy`, `QuizInvariants.dfy`, `QuizRuns.dfy`, `QuizDeadline.dfy`, `QuizFailures.dfy`, `QuizLaws.dfy`, `Assessment.dfy` | quizzes and attempts: steps, invariant, runs, deadline, failing calls, what callers are promised, the service class |
| `Submissions.dfy`, `SubmissionLaws.dfy`, `SubmissionService.dfy` | assignment submissions |
| `Gradebook.dfy`, `Transcript.dfy`, `Verdicts.dfy` | gradebook join, transcript fold, pass marks and verdicts over runs |
| `QuizWitness.dfy`, `AuthWitness.dfy`, `CommunicationWitness.dfy` | runs from the empty store that show what is not kept |
| `AuthStore.dfy`, `AuthLaws.dfy`, `AuthRuns.dfy`, `AuthService.dfy` | accounts, refresh tokens, one-time tokens |
| `CommunicationStore.dfy`, `CommunicationLaws.dfy`, `CommunicationRuns.dfy`, `CommunicationService.dfy` | announcements, threads, notices |
| `Curriculum.dfy`, `Rbac.dfy` | curriculum view, permission listing |

## Assumptions

- Every call is one atomic step with one clock reading. Store operations succeed, except
  for the one failure that is modelled: the attempt update in `SubmitAttempt` after its
  answers were replaced.
- Row ids are never handed out twice (they come from a counter here, random UUIDs there).
- Token hashing is an arbitrary function; uniqueness of stored hashes is the database's
  unique index, so storing a token whose hash exists fails. Theorems about a token are
  theorems about its hash.
- Case folding, email normalisation, password checking and random values are arbitrary
  functions or parameters. Trimming is Go's, character by character.
- Listings, page sizes, unique indexes, checks and cascades are those of
  `internal/repository/postgres` and `migrations`.

## What the code does and its documentation or callers do not say

- `docs/api/assessments.md:10` says option secrets are hidden from students until graded;
  the code hides them from every non-author always (`Assessment.KeyInvisible`).
- `docs/api/communication.md:16` says replies notify participants; a thread's author who
  is not the teacher never hears of one (`CommunicationRuns.ThreadAuthorUnheard`,
  `CommunicationWitness.OpenerUnheard`).
- `docs/api/communication.md:7` says publishing notifies enrolled students; the request
  for a page of 1000 is replaced by the default page of 20
  (`CommunicationRuns.FanOutReachesAll`, `CommunicationWitness.LearnerUnreached`). The
  transcript's request for 500 likewise (`Transcript.TeacherSeesCourse`,
  `Transcript.OldestCourseUnseen`).
- Locking a thread does not keep its posts: a reply may name a parent in another thread
  and goes with it (`CommunicationRuns.LockedLoses`,
  `CommunicationWitness.LockedThreadLosesPost`).
- A password reset ends the sessions but not the user's other reset tokens
  (`AuthRuns.OtherTokensStillHonoured`, `AuthWitness.SecondTokenSurvives`).
- Saving and submitting can report an error and still write, for one when the course was
  deleted, which only marks it (`internal/repository/postgres/course.go:182-195`)
  (`QuizFailures.ErrorAfterWrite`, `QuizWitness.FailedSaveWrites`,
  `QuizWitness.FailedSubmissionGrades`); every other quiz call that fails changes nothing.
- Registering can report an error after the account was made, and refreshing after the
  token was revoked (`AuthLaws.AuthErrorAfterWrite`).
- Deleting its only question leaves a published quiz empty (`QuizFailures.EmptiedExactly`,
  `QuizWitness.PublishedWithoutQuestions`).
- The transcript shows a draft's status, the gradebook does not
  (`Transcript.AssignmentsAgree`).
- A multiple-choice selection is compared by length and membership, so a repeated option
  can stand in for one that was not chosen (`Grading.RepeatedOptionEarnsPoints`).
- Deleting a question deletes the stored answers to it, also those of graded attempts
  (`QuizRuns.GradedAnswersForever`, `QuizWitness.GradedAnswerLost`).
- Saving a draft over a submission after a strict due date loses the submission
  (`Submissions.LateDraftLosesSubmission`, `Submissions.SubmissionLost`).
- Lowering an assignment's maximum leaves higher scores standing (`Submissions.RangeSurvives`,
  `Submissions.LoweredMaximum`).
- Gradebook and transcript can show different verdicts for equal percentages
  (`QuizWitness.TiedVerdictsDiffer`, with the exact condition in `Verdicts.VerdictsAgreeExactly`).
- A raw carriage return in a certificate field is shown as a line feed, and escaping does
  not prevent it (`Certificate.CertificateRoundTrip`, `Certificate.CarriageReturnLost`).

## Model

| member | source | states |
|---|---|---|
| `PdfWriter.PdfEscape` | internal/certificate/pdf.go:70-83 | the loop over the bytes computes the escaped text that the round trip below is about |
| `PdfWriter.PdfDoc.constructor` | internal/certificate/pdf.go:29-32 | an empty buffer, and one unused offset slot |
| `PdfWriter.PdfDoc.Write` | internal/certificate/pdf.go:34-36 | appends to the buffer and touches nothing else |
| `PdfWriter.PdfDoc.ObjStart` | internal/certificate/pdf.go:38-41 | keeps: slot i holds the byte offset at which object i starts in the buffer |
| `PdfWriter.WriteEntries` | internal/certificate/pdf.go:62-65 | one free entry and five in-use entries, each with the recorded offset of its object |
| `PdfWriter.MinimalPdf` | internal/certificate/pdf.go:43-68 | produces the file whose reading is characterised by the round trip |
| `PdfRoundTrip.ScanEscaped` | internal/certificate/pdf.go:48-52 | scanned by the literal-string rules of ISO 32000-1 section 7.3.4.2 (escapes, octal codes, nested parentheses, end-of-line markers), the escaped text ends exactly at the closing parenthesis the writer put, whatever text and whatever follows, and gives the text back with raw CRs read as LF |
| `PdfRoundTrip.ReadUnchanged` | internal/certificate/pdf.go:70-83 | that reading is the text itself if and only if it has no raw CR |
| `PdfRoundTrip.EscapeInjective` | internal/certificate/pdf.go:70-83 | different texts without CR are escaped differently |
| `PdfRoundTrip.StreamFound` | internal/certificate/pdf.go:57 | /Length is the exact byte count between the stream keywords, for any stream data (section 7.3.8) |
| `PdfRoundTrip.EntryShape` | internal/certificate/pdf.go:64 | a table entry is 20 bytes exactly for offsets below ten to the ten |
| `PdfRoundTrip.EntryPlace` | internal/certificate/pdf.go:61-65 | while offsets fit, the entry of object id occupies bytes 20*id to 20*id+20 of the table (section 7.5.4) |
| `PdfRoundTrip.ObjectFound` | internal/certificate/pdf.go:38-41 | a reader jumping to a recorded offset lands on `id 0 obj` and reads exactly that object |
| `PdfRoundTrip.StartXrefFound` | internal/certificate/pdf.go:60-66 | searching backwards, the reader finds the writer's own startxref and the number after it is the table's offset, even when the certificate text contains that word (section 7.5.5) |
| `PdfRoundTrip.TrailerFound` | internal/certificate/pdf.go:66 | the trailer gives /Size 6 and /Root 1 |
| `PdfRoundTrip.FittingFileOpens` | internal/certificate/pdf.go:43-68 | the random-access reader, going from startxref through the table and the references to the page content, recovers the text |
| `PdfRoundTrip.OversizedFileFails` | internal/certificate/pdf.go:63-65 | once an offset needs more than ten digits this reader gets nothing |
| `PdfRoundTrip.FontOffset` | internal/certificate/pdf.go:54-58 | the exact byte position of the last object, as a function of the text |
| `PdfRoundTrip.RoundTrip` | internal/certificate/pdf.go:43-68 | the reader recovers the text if and only if it has no raw CR and its escaped length is below 9999999670 |
| `Certificate.GeneratePdf` | internal/certificate/pdf.go:18-27 | a reader of the finished file finds the heading, the learner's name under "This certifies that", the course under "has successfully completed", the date after "Issued: " and the code after "Verification code: ", one a line, if and only if no field has a CR and all fit, for fields without line feeds; fields with line feeds keep their places |
| `Certificate.CertificateShows` | internal/certificate/pdf.go:19-25 | the same of the page text: all nine lines and which field stands on which |
| `Certificate.TextEscapes` | internal/certificate/pdf.go:19-25 | the size of the page: 113 bytes and the escaped fields, so the bound above is a bound on the fields |
| `Certificate.LinesJoined` | internal/certificate/pdf.go:19-25 | cutting a page at its line feeds gives back the lines it was made of |
| `Certificate.CertificateRoundTrip` | internal/certificate/pdf.go:18-27 | below that size, a certificate shows its fields as given if and only if none of them contains a CR |
| `Certificate.CarriageReturnLost` | internal/certificate/pdf.go:70-83 | a certificate whose learner name is a CR is not read back as it was written |
| `Decimal.PaddedFits` | internal/certificate/pdf.go:64 | %010d prints exactly ten digits for numbers below ten to the ten, more above, and the digits always denote the number |
| `Decimal.ReadPrinted` | internal/certificate/pdf.go:40 | a number printed with %d and followed by a non-digit is read back exactly |
| `Grading.ValidateQuestion` | internal/service/assessment.go:791-817 | accepts exactly the questions for which some answer has been declared right |
| `Grading.GradeAnswer` | internal/service/assessment.go:819-845 | an MCQ without repeats is right if and only if exactly the correct options are chosen, a short answer if and only if it and the key, trimmed, have the same length and every two characters fold alike, anything else never; points all or nothing |
| `Grading.McqIsSetEquality` | internal/service/assessment.go:821-836 | for a selection without repeats, an MCQ earns its points if and only if the selection equals the set of correct options |
| `Grading.McqExact` | internal/service/assessment.go:828-836 | grading agrees with set equality on every question if and only if the selection names no option twice |
| `Grading.KeyInAnyCase` | internal/service/assessment.go:837-841 | answering with the key, whatever its case, earns the points |
| `Grading.OneLetterOff` | internal/service/assessment.go:837-841 | an answer that differs from the key in one character, whatever the case, earns nothing |
| `Grading.RepeatedOptionEarnsPoints` | internal/service/assessment.go:828-836 | naming one of two correct options twice is graded correct |
| `Grading.BlankIsWrong` | internal/service/assessment.go:427-433 | the made-up blank answer is wrong if and only if the question has a right answer to miss |
| `Grading.GradeAll` | internal/service/assessment.go:417-436 | exactly one graded answer per question in question order, score the sum of the awards, maximum the sum of the points |
| `Grading.GradedKeepsAnswer` | internal/service/assessment.go:417-436 | what is graded is the learner's last answer to the question, or a blank one, and only its grade changes |
| `Grading.ScoreAddsUp` | internal/service/assessment.go:423-436 | score and maximum of two lists of questions add up |
| `Grading.OneQuestion` | internal/service/assessment.go:423-436 | a single question counts its points, and scores them if and only if answered right |
| `Grading.ScoreBounds` | internal/service/assessment.go:423-436 | 0 <= score <= maximum |
| `Grading.FullScore` | internal/service/assessment.go:423-436 | the score is the maximum if and only if every question was answered right |
| `Grading.PercentBounds` | internal/service/assessment.go:440-443 | 0 <= percent <= 100, and 100 exactly at the full score |
| `Grading.PassIsRational` | internal/service/assessment.go:440-448 | truncation never changes who passes: percent >= pass if and only if score*100 >= pass*max |
| `Grading.HundredPercent` | internal/service/assessment.go:440-448 | a non-empty quiz of positive points gets 100 percent if and only if everything was answered right |
| `Grading.CorrectingHelps` | internal/service/assessment.go:423-448 | turning wrong answers into right ones never lowers score or percent and never turns passed into failed |
| `Grading.GradingIdempotent` | internal/service/assessment.go:417-436 | grading the graded answers of distinct questions again changes nothing |
| `Grading.BlankAttemptScoresZero` | internal/service/assessment.go:427-436 | an attempt without answers scores 0 on questions that validation accepts |
| `Assessment.AssessmentService.StartAttempt` | internal/service/assessment.go:273-307 | whole result and new store: an open attempt is returned as it is, else one numbered count+1 is created unless the limit is reached; the errors in order; the numbering invariant is kept; a refused call changes nothing |
| `Assessment.AssessmentService.GetAttempt` | internal/service/assessment.go:320-343 | owner, teacher or administrator get the attempt with its answers; the errors in the source's order |
| `Assessment.AssessmentService.CleanAnswers` | internal/service/assessment.go:370-387 | refuses a list naming a question that is not the quiz's, else strips every grade from it |
| `Assessment.AssessmentService.ReplaceAll` | internal/repository/postgres/assessment.go:540-575 | replaces the stored answers, all or none: a list with two answers to one question is a conflict |
| `Assessment.AssessmentService.SaveAnswers` | internal/service/assessment.go:345-392 | whole result and new store: owner, open attempt, deadline, only the quiz's questions, then all answers replaced and ungraded; no other attempt touched; invariant kept |
| `Assessment.AssessmentService.SubmitAttempt` | internal/service/assessment.go:394-455 | whole result and new store, also when it fails between its two writes: graded answers first, then score, percent and verdict; invariant kept |
| `Assessment.AssessmentService.CreateQuiz` | internal/service/assessment.go:50-75 | a draft quiz without questions, pass mark outside 0..100 read as 60, non-positive limits refused; invariant kept; a refused call changes nothing |
| `Assessment.AssessmentService.UpdateQuiz` | internal/service/assessment.go:133-157 | which fields change and which requests are refused; questions and attempts untouched; invariant kept; a refused call changes nothing |
| `Assessment.AssessmentService.PublishQuiz` | internal/service/assessment.go:159-175 | published exactly when a manager asks and there is a question; invariant kept; a refused call changes nothing |
| `Assessment.AssessmentService.AddQuestion` | internal/service/assessment.go:177-213 | only questions with a right answer are stored, at the end of the order, worth at least one point; invariant kept; a refused call changes nothing |
| `Assessment.AssessmentService.InsertQuestion` | internal/repository/postgres/assessment.go:155-178 | the new row and its place at the end, and nothing else |
| `Assessment.AssessmentService.UpdateQuestion` | internal/service/assessment.go:215-243 | type and quiz stay, only questions with a right answer and positive points are stored; invariant kept; a refused call changes nothing |
| `Assessment.AssessmentService.DeleteQuestion` | internal/service/assessment.go:245-258 | the question, its place in the order and every stored answer to it go, nothing else; invariant kept; a refused call changes nothing |
| `Assessment.AssessmentService.ReorderQuestions` | internal/service/assessment.go:260-269 | whole result and new store, for any list, with repeats or questions missing; invariant kept; a refused call changes nothing |
| `Positions.Reorder` | internal/repository/postgres/curriculum.go:388-416 | the two passes accept exactly the non-empty lists of children that leave no unnamed child below the list's length, and move each named child in turn |
| `Positions.ReorderedIs` | internal/repository/postgres/curriculum.go:398-414 | a successful reordering keeps the children, one position each; each named one stands where it is named last, the others where they were |
| `Positions.FullReorder` | internal/repository/postgres/curriculum.go:388-416 | naming every child once always succeeds and gives exactly the order named |
| `Positions.PlacedMembers` | internal/repository/postgres/curriculum.go:409-414 | moving children one after the other leaves each at the last place that names it |
| `Positions.AppendedIs` | internal/repository/postgres/assessment.go:253-260 | a new child comes last, one position above the highest and at 0 when it is the first, and keeps positions unique |
| `QuizRuns.ReorderShows` | internal/service/assessment.go:260-269 | after reordering with all its questions a quiz shows them in the order named |
| `QuizRuns.RunKeepsListed` | internal/service/assessment.go:177-269 | over every run every stored question stands in the list of its quiz |
| `Assessment.EnsureOptionIds` | internal/service/assessment.go:854-860 | fills in the missing ids in the caller's array and leaves every other field alone |
| `QuizInvariants.StepKeepsInv` | internal/service/assessment.go:273-455 | every call keeps: numbers 1..n per learner and quiz, at most one open attempt, results that add up, one stored answer per question of the quiz, positive points |
| `QuizInvariants.RunKeepsInv` | internal/service/assessment.go:273-455 | the same over every run |
| `QuizRuns.NumbersAreOneToN` | internal/service/assessment.go:289-299 | in every store with the invariant, a learner's attempts at a quiz carry exactly the numbers 1..n |
| `QuizRuns.StartResumes` | internal/service/assessment.go:284-288 | starting while an attempt is open returns that attempt and changes nothing |
| `QuizRuns.NewAttempt` | internal/service/assessment.go:273-306 | a new attempt row only comes from such a start, numbered count+1 |
| `QuizRuns.EveryAttemptWithinLimit` | internal/service/assessment.go:273-306 | every attempt that appears in a run was created by a start of its learner, at that call's clock reading, when the quiz was published, the learner actively enrolled, no attempt open and the number within the limit |
| `QuizRuns.AttemptKept` | internal/service/assessment.go:273-455 | attempts are never lost, and keep quiz, learner, number and start |
| `QuizRuns.GradedForever` | internal/service/assessment.go:353-355 | over every run a graded attempt never changes; its stored answers only lose those whose question was deleted |
| `QuizRuns.QuestionStays` | internal/service/assessment.go:245-258 | a stored question is there at the end of a run if and only if no call of the run deleted it |
| `QuizRuns.GradedAnswersForever` | internal/service/assessment.go:402-404 | the stored answers of a graded attempt stay exactly as they are over a run if and only if no successful deletion in it names an answered question |
| `QuizWitness.GradedAnswerLost` | internal/service/assessment.go:245-258 | a run from the empty store in which a graded attempt loses its stored answer |
| `QuizRuns.SubmissionResult` | internal/service/assessment.go:417-455 | what a successful submission stores: per question the stored answer with its grade, times, a score within bounds, the rational verdict, 100 percent only for an all-correct attempt, and nothing else changed |
| `QuizRuns.RetryAfterFailure` | internal/service/assessment.go:437-453 | a submission that failed between replacing answers and updating the attempt can be retried and ends in the same store as one that never failed |
| `QuizFailures.ErrorAfterWrite` | internal/service/assessment.go:345-455 | in every store with the invariant, a call reports an error and still changes the store if and only if it is a save of new answers that passes all checks while the quiz's course is gone, or a submission of the learner's open attempt whose course is gone, or whose second write fails after answers graded differently were stored |
| `QuizWitness.FailedSaveWrites` | internal/service/assessment.go:388-391 | a run from the empty store after which a save reports an error and the answers are stored |
| `QuizWitness.FailedSubmissionGrades` | internal/service/assessment.go:437-454 | a run from the empty store after which a submission reports an error and the attempt is graded |
| `QuizFailures.EmptiedExactly` | internal/service/assessment.go:245-258 | a call leaves a quiz that has a question without one if and only if it is an allowed deletion of its only question |
| `QuizFailures.PublishedHasQuestions` | internal/service/assessment.go:159-175 | in every run from the empty store in which no call deletes the only question of a published quiz, every published quiz has a question |
| `QuizWitness.PublishedWithoutQuestions` | internal/service/assessment.go:245-258 | a run from the empty store that ends with a published quiz without questions |
| `QuizDeadline.LateSaveRefused` | internal/service/assessment.go:360-365 | after the deadline a save is refused and changes nothing |
| `QuizDeadline.DeadlineFreezes` | internal/service/assessment.go:360-365 | from the deadline on, over every run that leaves the quiz and its questions alone, the attempt is open with the same grades ahead of it, or closed with exactly those |
| `QuizDeadline.SavedAnswers` | internal/service/assessment.go:374-391 | a save that succeeds or writes at all leaves the attempt open with one row per answer given, to that question, with exactly the selection given, the text trimmed, no grade and no points |
| `QuizDeadline.RecordingKeepsGrades` | internal/service/assessment.go:374-387 | recording changes no grade: for every question the stored row is right if and only if the answer given was |
| `QuizDeadline.LateSubmissionGradesLastSave` | internal/service/assessment.go:394-455 | submitting at any time after the deadline grades exactly the answers given in the last save before it: choice, correctness, points, score and verdict, question by question |
| `QuizDeadline.StoredKey` | internal/service/assessment.go:192-207 | filling in ids and trimming keeps a validated question gradable |
| `QuizDeadline.TrimTwice` | internal/service/assessment.go:207 | trimming twice is trimming once |
| `Common.TrimIs` | internal/service/assessment.go:383 | trimming cuts off the spaces at both ends and nothing else |
| `QuizDeadline.RunKeepsKeys` | internal/service/assessment.go:192-242 | over every run every stored question has a right answer |
| `QuizDeadline.UnansweredEarnsNothing` | internal/service/assessment.go:427-433 | in every reachable store an unanswered question is graded wrong and earns 0 |
| `QuizDeadline.BlankSubmission` | internal/service/assessment.go:427-448 | in every reachable store, submitting an attempt without answers scores 0 |
| `Assessment.AssessmentService.GetQuiz` | internal/service/assessment.go:102-131 | what it gives anybody but the teacher and administrators hides every key and keeps ids, prompts, points and option texts; else equals the view function |
| `Assessment.StripQuestionSecrets` | internal/service/assessment.go:847-852 | no key answer and no option marked correct is left, and nothing else of the question changes |
| `Assessment.KeyInvisible` | internal/service/assessment.go:102-131 | two stores that agree on all fields of questions but key answers and correct marks give everybody but authors the same quiz |
| `QuizLaws.WhoSeesAQuiz` | internal/service/assessment.go:102-131 | a quiz is given to those who manage its course and, once published, to those actively enrolled; an unpublished one is not found by others |
| `QuizLaws.WhatAQuizShows` | internal/service/assessment.go:102-131 | managers see the stored questions, others the same prompts, points and option texts with every key answer blank and no option marked |
| `QuizLaws.ManagingAnswered` | internal/service/assessment.go:50-269 | every managing request: not found, forbidden, invalid, unstorable or done, each if and only if, in that order |
| `QuizLaws.CreatedQuiz` | internal/service/assessment.go:50-75 | creating and then reading gives a draft with exactly the values given |
| `QuizLaws.UpdatedQuiz` | internal/service/assessment.go:133-157 | editing and then reading gives exactly the values given, and the old title, mark and shuffling where none is given |
| `QuizLaws.PublishedQuiz` | internal/service/assessment.go:159-175 | after publishing everybody actively enrolled gets the quiz, with nothing else changed |
| `QuizLaws.AddedQuestion` | internal/service/assessment.go:177-213 | adding and then reading gives the old questions and last the new one with exactly the values given |
| `QuizLaws.ChangedQuestion` | internal/service/assessment.go:215-243 | changing and then reading gives the new values in the old place, and every other question as it was |
| `QuizLaws.DeletedQuestion` | internal/service/assessment.go:245-258 | deleting removes exactly that question from the list and keeps the order of the others |
| `QuizLaws.WhoSeesAnAttempt` | internal/service/assessment.go:320-343 | an attempt with its answers is given to its learner and those who manage the course, and to nobody else |
| `QuizLaws.OthersAttemptsInvisible` | internal/service/assessment.go:320-343 | two stores that differ only in other learners' attempts answer everybody else alike |
| `QuizLaws.StartAnswers` | internal/service/assessment.go:273-307 | starting: each refusal if and only if, an open attempt given back, else a fresh row with every field |
| `QuizLaws.SaveAnswered` | internal/service/assessment.go:345-392 | saving: each refusal if and only if, in order, in terms of learner, status, time, questions and repeats |
| `QuizLaws.SubmitAnswered` | internal/service/assessment.go:394-455 | submitting: each refusal if and only if, and the stored rows given back |
| `QuizLaws.OnlyTheLearnerWrites` | internal/service/assessment.go:345-455 | over every call: an attempt changes only by its learner's submission, its answers only by its learner's calls while it is open or by a manager deleting an answered question |
| `SubmissionService.SubmissionService.GetByAssignmentUser` | internal/repository/postgres/assessment.go:834-849 | the only row of the learner for the assignment, if there is one |
| `SubmissionService.SubmissionService.UpsertSubmission` | internal/service/assessment.go:566-612 | whole result and new tables: unpublished, not enrolled, late and graded are refused in that order, else the one row of the learner is created or edited; invariant kept; a refused call changes nothing |
| `SubmissionService.SubmissionService.GradeSubmission` | internal/service/assessment.go:648-680 | drafts and scores outside 0..maximum are refused, regrading is not; the work handed in is untouched; invariant kept; a refused call changes nothing |
| `SubmissionService.SubmissionService.UpdateAssignment` | internal/service/assessment.go:533-553 | which fields change (a non-positive maximum is ignored); submissions untouched; invariant kept; a refused call changes nothing |
| `Submissions.RunKeepsInv` | internal/service/assessment.go:566-680 | over every run: graded if and only if there is a score, then also submitted time, graded time and who graded; one submission per learner and assignment |
| `Submissions.GradedForever` | internal/service/assessment.go:594-597 | from the first grade on, body, attachment and submitted time never change and the submission stays graded |
| `Submissions.ScoreInRange` | internal/service/assessment.go:663-675 | a score only changes by grading, to a value within 0..maximum of that moment |
| `SubmissionLaws.Refusals` | internal/service/assessment.go:566-587 | who may not save work: no assignment, an unpublished one, no active enrollment, or submitting too late |
| `SubmissionLaws.FirstWork` | internal/service/assessment.go:588-611 | first work makes the learner's row with exactly what was given |
| `SubmissionLaws.LaterWork` | internal/service/assessment.go:588-611 | later work replaces body, attachment and status of that row until it is graded |
| `SubmissionLaws.WorkIsStored` | internal/service/assessment.go:588-611 | after a successful save the learner has one row, it holds the body and attachment given, and no other row changed |
| `SubmissionLaws.GradingAnswered` | internal/service/assessment.go:648-680 | grading: each refusal if and only if, else the row with the grade and everything else it held |
| `SubmissionLaws.EditAnswered` | internal/service/assessment.go:533-553 | editing an assignment: each refusal if and only if, else exactly the values given |
| `SubmissionLaws.WhoWrites` | internal/service/assessment.go:566-680 | over every call: work changes only by its learner and not once graded, score and feedback only by those who manage the course |
| `Submissions.RangeSurvives` | internal/service/assessment.go:545-552 | editing an assignment keeps all scores within their maximum if and only if it leaves the maximum alone or no score of that assignment is above the new one |
| `Submissions.OtherCallsKeepRange` | internal/service/assessment.go:663-670 | submitting and grading keep all scores within their maximum |
| `Submissions.LoweredMaximum` | internal/service/assessment.go:545-547 | a run from the empty tables in which lowering the maximum leaves a score above it |
| `Submissions.RangeOverRuns` | internal/service/assessment.go:533-675 | throughout a run from the empty tables all scores lie within their maximum if and only if every call respects the scores it finds: no accepted edit, and no change by other services, puts a maximum below one |
| `Submissions.LoweringNothingRespects` | internal/service/assessment.go:459-485 | changes by other services respect the scores when they lower no maximum and bring in no assignment that has submissions |
| `Submissions.DraftThenSubmit` | internal/service/assessment.go:578-607 | saving a submitted piece as a draft succeeds, and it can be submitted again if and only if there is no due date, it has not passed or late work is taken |
| `Submissions.DraftForever` | internal/service/assessment.go:578-607 | over every run after a strict due date in which nobody edits the assignment, a draft stays a draft |
| `Submissions.LateDraftLosesSubmission` | internal/service/assessment.go:577-607 | so a submitted piece saved as a draft after a strict due date stays one, and every later attempt to submit or grade it is refused, at any point of any such run |
| `Submissions.SubmissionLost` | internal/service/assessment.go:577-607 | a run from the empty tables that loses a submission: every later submission of that work and every grading of it is refused |
| `Gradebook.IndexAttempts` | internal/service/assessment.go:709-715 | the hash index answers what a scan for the last matching row answers |
| `Gradebook.IndexSubmissions` | internal/service/assessment.go:723-729 | the nested index answers what a scan for the last matching row answers |
| `Gradebook.CountAttempts` | internal/service/assessment.go:716-721 | every (learner, quiz) pair of the two lists is indexed with its count |
| `Gradebook.Join` | internal/service/assessment.go:709-763 | the five-list join equals the naive nested scan, in order |
| `Gradebook.Gradebook` | internal/service/assessment.go:682-764 | the same for the page of enrollments the repository grants |
| `Gradebook.GradebookComplete` | internal/service/assessment.go:686-688 | every active learner has an entry if and only if at most 100 are active |
| `Gradebook.EntryShows` | internal/service/assessment.go:731-763 | an entry names the learner, lists all quizzes and assignments in order with titles, counts and maxima, and shows no percent if and only if no row is the learner's |
| `Transcript.BestScore` | internal/service/certificate.go:270-278 | the fold shows the earliest attempt of maximal graded percent, with its verdict, and nothing if and only if none is graded |
| `Transcript.BestIsUnique` | internal/service/certificate.go:270-278 | there is only one such attempt |
| `Transcript.TranscriptCourse` | internal/service/certificate.go:247-306 | one score per published quiz and published assignment, in order |
| `Transcript.BuildTranscript` | internal/service/certificate.go:221-245 | one row per enrollment on the fetched page, in page order |
| `Transcript.UserTranscript` | internal/service/certificate.go:196-219 | the rows of the asked course, in order, for a manager of it; not found without an enrollment |
| `Transcript.TeacherSeesCourse` | internal/service/certificate.go:196-224 | of a learner's active course the teacher is shown exactly its row if it is among the 20 newest, and nothing otherwise |
| `Transcript.OldestCourseUnseen` | internal/service/certificate.go:196-224 | for a learner active in 21 courses the teacher of the oldest is shown no course |
| `Enrollments.PagesAreActive` | internal/service/certificate.go:221-224 | the listings hold active enrollments of the course, or of the learner, only |
| `Transcript.PublishedAmong` | internal/service/certificate.go:259-265 | each published quiz of the course has its place in the transcript, after exactly the published ones before it |
| `Transcript.PublishedOnly` | internal/service/certificate.go:259-261 | and nothing else: each quiz the transcript shows is a published one of the course |
| `Transcript.GradebookAgrees` | internal/service/assessment.go:740-748 | for one quiz and learner the gradebook's entry, as joined, and the transcript's row show the same percent and number of attempts, and the same verdict when all attempts at the top agree on one |
| `Transcript.AssignmentsAgree` | internal/service/assessment.go:749-757 | for one assignment and learner the gradebook's entry and the transcript's row show the same score, and the same status if and only if the submission is not a draft |
| `Transcript.AssignmentsAmong` | internal/service/certificate.go:283-294 | each published assignment of the course has its place in the transcript, after exactly the published ones before it |
| `Transcript.AssignmentRowsAre` | internal/service/certificate.go:283-294 | and nothing else: each row is that of a published assignment, with the score and status of the learner's submission if there is one |
| `Verdicts.RunKeepsVerdicts` | internal/service/assessment.go:440-448 | over every run that never sets a quiz's pass mark, every graded attempt of it passed if and only if its percent reaches the mark |
| `Verdicts.SameShown` | internal/service/certificate.go:262-280 | hence in every such run gradebook and transcript show each learner the same percent, verdict and number of attempts |
| `Verdicts.NewMark` | internal/service/assessment.go:147-152 | setting a new mark leaves all verdicts matching if and only if no graded attempt has a percent between the old mark and the new one |
| `Verdicts.JudgedWhenClosed` | internal/service/assessment.go:444-448 | over every run a verdict is that of the mark in force when the attempt was submitted, and is never revised |
| `Verdicts.VerdictsAgreeExactly` | internal/service/certificate.go:270-278 | the transcript's verdict is that of every row the gradebook query may pick if and only if the best attempts were submitted under marks on the same side of their percent |
| `QuizWitness.TiedVerdictsDiffer` | internal/repository/postgres/assessment.go:435-442 | a run from the empty store after which the transcript shows a failure and the gradebook query may pick a pass, both with 0 percent |
| `AuthService.AuthService.GetByEmail` | internal/repository/postgres/user.go:55-70 | the only account with the email, if there is one |
| `AuthService.AuthService.Register` | internal/service/auth.go:74-117 | whole result and new tables, error by error: a taken email changes nothing, a later failure leaves the account; emails stay unique; no existing account is touched |
| `AuthService.AuthService.Login` | internal/service/auth.go:119-135 | a session exactly for an active account whose password checks, found by its unique email; only refresh tokens change; a refused call changes nothing |
| `AuthService.AuthService.Refresh` | internal/service/auth.go:137-160 | whole result and new tables: the spent token revoked before the new one is issued; only refresh tokens change; after a success the presented token is revoked |
| `AuthService.AuthService.Logout` | internal/service/auth.go:162-167 | at most one token is revoked, and unknown tokens are no error; only refresh tokens change; after a success a stored token is revoked |
| `AuthService.AuthService.ForgotPassword` | internal/service/auth.go:180-213 | a reset token for an existing email, and no error that tells whether it exists; only reset tokens change; a refused call changes nothing |
| `AuthService.AuthService.ResetPassword` | internal/service/auth.go:215-242 | whole result and new tables: password, used mark and revocation of all the user's sessions together or not at all |
| `AuthService.AuthService.VerifyEmail` | internal/service/auth.go:244-262 | whole result and new tables: account verified and token used together or not at all; a refused call changes nothing |
| `AuthService.AuthService.IssueSession` | internal/service/auth.go:264-293 | one new token, or an error if its hash is taken |
| `AuthService.AuthService.Revoke` | internal/repository/postgres/auth_tokens.go:61-72 | revokes a token that is not revoked yet, and nothing else |
| `AuthRuns.RunKeepsInv` | internal/service/auth.go:74-262 | over every run no two accounts share an email |
| `AuthRuns.RunKeepsTokens` | internal/service/auth.go:137-262 | over every run no token is forgotten, changes owner or expiry, or comes back from being revoked or used |
| `AuthRuns.AcceptedMeans` | internal/service/auth.go:142-159 | an accepted refresh token was stored, unrevoked, unexpired and of an active user, and is revoked by being accepted |
| `AuthRuns.AcceptedOnce` | internal/service/auth.go:137-160 | in every run each refresh token is accepted at most once |
| `AuthRuns.NeverAfterLogout` | internal/service/auth.go:162-167 | in every run a token that was logged out is never accepted again |
| `AuthRuns.RotationKeepsCount` | internal/service/auth.go:158-159 | rotation leaves every user's number of unrevoked tokens unchanged |
| `AuthRuns.LiveTokenLineage` | internal/service/auth.go:119-293 | in every run every unrevoked token chains back through rotations of the same user to the account's registration or to a login whose password checked against the account's hash at that moment, with no reset of that password since |
| `AuthRuns.AcceptedLineage` | internal/service/auth.go:137-160 | so does every token at the moment it is accepted |
| `AuthLaws.LoginSucceeds` | internal/service/auth.go:119-135 | a login succeeds if and only if some account has the email, is active and its hash checks against the password (and the token's hash is free), and the new token is that account's |
| `AuthLaws.LoginAnswered` | internal/service/auth.go:119-135 | inactive, wrong password and taken hash are told apart, in that order, and change nothing |
| `AuthLaws.LoginUnknown` | internal/service/auth.go:119-127 | an unknown email is answered as a wrong password is |
| `AuthRuns.PasswordSetLast` | internal/service/auth.go:74-242 | over every run an account's hash is the one its registration or its latest reset gave |
| `AuthRuns.LoginChecksLatestPassword` | internal/service/auth.go:119-135 | so at any point of any run a login succeeds if and only if the account is active and the password checks against the hash set last (and the token's hash is free) |
| `AuthLaws.RegisterAnswered` | internal/service/auth.go:74-117 | registering: each refusal in order, and every field of the account and its tokens |
| `AuthLaws.RefreshAnswered` | internal/service/auth.go:137-160 | exchanging a token: each refusal if and only if, else that token revoked, every other one kept and one issued to the same user |
| `AuthLaws.LogoutAnswered` | internal/service/auth.go:162-167 | logging out revokes that token and leaves every other one live |
| `AuthLaws.ForgotAnswered` | internal/service/auth.go:180-213 | a token for an hour to the account with the email, and the same silent answer for an unknown one |
| `AuthLaws.ResetAnswered` | internal/service/auth.go:215-242 | resetting: each refusal in order, else password, used mark and exactly that user's sessions together |
| `AuthLaws.VerifyAnswered` | internal/service/auth.go:244-262 | verifying: each refusal in order, else that account and that token only |
| `AuthLaws.AuthErrorAfterWrite` | internal/service/auth.go:74-262 | a call reports an error and still changes the tables if and only if it is a registration whose tokens cannot be stored after the account was, or a refresh of a good token whose successor cannot be |
| `AuthRuns.HonouredMeans` | internal/service/auth.go:223-261 | a reset or verification token is honoured only when stored, unused and not expired, and is used up by it |
| `AuthRuns.HonouredOnce` | internal/service/auth.go:215-262 | in every run each reset token and each verification token is honoured at most once |
| `AuthRuns.ResetEndsSessions` | internal/service/auth.go:235-241 | after a password reset every token issued to that user before is refused for the rest of every run, and other users' tokens are untouched |
| `AuthRuns.AccountChanges` | internal/service/auth.go:74-262 | no call changes an account's email; its password changes only by a reset token of that account, its verification only by a verification token of that account |
| `AuthRuns.ResetTokenOrigin` | internal/service/auth.go:193-207 | in every run every reset token was asked for with the email its account had then |
| `AuthRuns.VerifyTokenOrigin` | internal/service/auth.go:102-105 | in every run every verification token was made by the registration of its account |
| `AuthRuns.PasswordChangeTraced` | internal/service/auth.go:180-242 | in every run a password changes only through a token asked for with that account's email at most an hour before |
| `AuthRuns.VerificationTraced` | internal/service/auth.go:102-262 | in every run an account is verified only through the token its own registration made, within 48 hours |
| `AuthRuns.ResetChangesOneAccount` | internal/service/auth.go:231-237 | a reset changes one password and nothing about other accounts |
| `AuthRuns.ResetTokenFate` | internal/service/auth.go:215-242 | over every run an unused reset token is used if and only if some call of the run was honoured with it, and otherwise is as it was |
| `AuthRuns.OtherTokensStillHonoured` | internal/service/auth.go:235-241 | after a successful reset any other reset token, at any point of any later run, is honoured if and only if the request is well formed, the token was unused, has not been used or expired since and its account still exists |
| `AuthWitness.SecondTokenSurvives` | internal/service/auth.go:235-241 | a run from the empty tables in which a password is reset and a second reset token of the account, asked for before, sets it again |
| `CommunicationService.CommunicationService.NotifyCourseEnrollees` | internal/service/communication.go:433-444 | the loop sends each learner on the fetched page, but the excluded one, exactly one notice |
| `CommunicationService.CommunicationService.NotifyCourseTeacher` | internal/service/communication.go:446-452 | one notice to the teacher unless excluded or the course is gone |
| `CommunicationService.CommunicationService.NotifyUnseen` | internal/service/communication.go:459-473 | for any list with repeats, exactly one notice to each distinct user outside the skipped set |
| `CommunicationService.CommunicationService.NotifyThreadParticipants` | internal/service/communication.go:454-481 | for any list with repeats, exactly one notice to each recipient, and none to anybody else |
| `CommunicationService.CommunicationService.ListParticipantIDs` | internal/repository/postgres/communication.go:323-339 | the authors of the thread's posts, each once |
| `CommunicationService.CommunicationService.CreateAnnouncement` | internal/service/communication.go:54-75 | a draft by a manager of the course with a title, and no notice; invariant kept; a refused call changes nothing |
| `CommunicationService.CommunicationService.UpdateAnnouncement` | internal/service/communication.go:102-118 | only drafts change, and no notice is sent; invariant kept; a refused call changes nothing |
| `CommunicationService.CommunicationService.PublishAnnouncement` | internal/service/communication.go:120-140 | whole result and new tables: only drafts, then the fan-out to the fetched page without the publisher; invariant kept; a refused call changes nothing |
| `CommunicationService.CommunicationService.DeleteAnnouncement` | internal/service/communication.go:142-151 | the announcement goes, notices already sent stay; invariant kept; a refused call changes nothing |
| `CommunicationService.CommunicationService.CreateThread` | internal/service/communication.go:155-186 | an open thread with its first post, and one notice to the teacher unless opening it; invariant kept; a refused call changes nothing |
| `CommunicationService.CommunicationService.LockThread` | internal/service/communication.go:206-215 | only the status of that thread changes, for a manager of the course; invariant kept; a refused call changes nothing |
| `CommunicationService.CommunicationService.Reply` | internal/service/communication.go:233-238 | the post stored and the participants told, or nothing at all when the parent does not exist |
| `CommunicationService.CommunicationService.CreatePost` | internal/service/communication.go:217-239 | whole result and new tables: no reader, locked, empty and dangling parent are refused in that order; invariant kept; a refused call changes nothing |
| `CommunicationService.CommunicationService.UpdatePost` | internal/service/communication.go:252-272 | only the text of that post changes; every reason against it but absence is reported as forbidden; invariant kept; a refused call changes nothing |
| `CommunicationService.CommunicationService.DeletePost` | internal/service/communication.go:274-289 | exactly the post and the replies below it go, so no reply is left without its parent; invariant kept; a refused call changes nothing |
| `CommunicationRuns.RunKeepsInv` | internal/service/communication.go:54-289 | over every run: posts belong to threads, parents exist and are older, publish notices are about published announcements |
| `CommunicationRuns.PublishedOnce` | internal/service/communication.go:120-140 | over every run each user gets at most one notice that a given announcement was published |
| `CommunicationRuns.PublishSucceedsOnce` | internal/service/communication.go:128-133 | after one successful publish every later publish of that announcement is refused, in every run |
| `CommunicationRuns.PublishedForever` | internal/service/communication.go:102-133 | over every run a published announcement never changes |
| `CommunicationRuns.DeletedForever` | internal/service/communication.go:142-151 | and once deleted it never comes back |
| `CommunicationLaws.CreateAnnouncementAnswered` | internal/service/communication.go:54-75 | each refusal if and only if, else a draft with exactly the values given |
| `CommunicationLaws.UpdateAnnouncementAnswered` | internal/service/communication.go:102-118 | each refusal if and only if, else the draft with exactly the values given |
| `CommunicationLaws.PublishAnswered` | internal/service/communication.go:120-140 | each refusal if and only if, else published with nothing else of it changed |
| `CommunicationLaws.DeleteAnnouncementAnswered` | internal/service/communication.go:142-151 | each refusal if and only if, else exactly that announcement gone |
| `CommunicationLaws.CreateThreadAnswered` | internal/service/communication.go:155-186 | whoever manages or is actively enrolled opens a thread whose title and first post are those given |
| `CommunicationLaws.LockAnswered` | internal/service/communication.go:206-215 | only a manager locks, and only the status changes |
| `CommunicationLaws.CreatePostAnswered` | internal/service/communication.go:217-239 | each refusal if and only if, else the post with exactly the text and parent given |
| `CommunicationLaws.UpdatePostAnswered` | internal/service/communication.go:252-272 | only the author or a manager, and only the text |
| `CommunicationLaws.DeletePostAnswered` | internal/service/communication.go:274-289 | only the author or a manager; a post goes if and only if it is the one named or answers one that goes |
| `CommunicationRuns.ThreadNotices` | internal/service/communication.go:181-184 | opening a thread sends exactly one notice, to the teacher, and none if the teacher opens it |
| `CommunicationRuns.LockedForever` | internal/service/communication.go:206-227 | over every run a locked thread stays locked and never gains a post |
| `CommunicationRuns.PostStays` | internal/service/communication.go:274-289 | over every run a post stays if and only if no call deletes it or a post above it, whatever thread that post is in and whether or not the thread is locked |
| `CommunicationRuns.LockedLoses` | internal/service/communication.go:206-289 | a call changes which posts a locked thread holds if and only if it is an allowed deletion of a post that one of them stands under |
| `CommunicationWitness.LockedThreadLosesPost` | internal/service/communication.go:217-289 | a run from the empty tables after which deleting a learner's own post in an open thread removes another learner's post from a locked one |
| `CommunicationRuns.ReplyNotices` | internal/service/communication.go:454-481 | a reply adds exactly one notice for a user if and only if the user is not the one replying and is the teacher or a participant other than the thread author |
| `CommunicationRuns.ThreadAuthorUnheard` | internal/service/communication.go:463 | the author of a thread hears of a reply only when also the course's teacher |
| `CommunicationWitness.OpenerUnheard` | internal/service/communication.go:454-481 | a run from the empty tables in which somebody replies and the thread's author, not a teacher, gets no notice |
| `CommunicationRuns.PublishNotices` | internal/service/communication.go:134-139 | publishing adds exactly one notice for each fetched active learner but the publisher, and no other |
| `CommunicationRuns.FanOutReachesAll` | internal/service/communication.go:433-436 | the fetched learners are all active ones (the publisher aside) if and only if at most 20 are active, or 21 of whom the publisher enrolled first |
| `CommunicationWitness.LearnerUnreached` | internal/service/communication.go:430-452 | a run from the empty tables in which an announcement is published to 22 active learners and one of them gets no notice |
| `CommunicationRuns.PostChanges` | internal/service/communication.go:252-289 | a post disappears only with the deletion of it or of a post above it, and changes only in its text, each by that post's author or a manager of the course |
| `Curriculum.VisibleLessons` | internal/service/curriculum.go:61-81 | the inner loop yields the projection of the module's full lessons |
| `Curriculum.GetTree` | internal/service/curriculum.go:36-84 | authors get the full tree; everybody else exactly its projection, with blocks if and only if actively enrolled; not found exactly for a missing course or an unpublished one of another author |
| `Curriculum.VisibleAt` | internal/service/curriculum.go:67-80 | each published lesson appears after exactly the published lessons before it |
| `Curriculum.VisibleOnly` | internal/service/curriculum.go:67-70 | nothing else appears |
| `Curriculum.DraftsInvisible` | internal/service/curriculum.go:67-78 | repositories whose lesson rows differ only in drafts, or whose blocks differ and the reader is not actively enrolled, give everybody but authors the same tree |
| `Curriculum.WhatATreeShows` | internal/service/curriculum.go:36-84 | not found exactly for a missing course or an unpublished one of another author; authors see every row with its stored blocks, others exactly the published rows in order, with blocks if and only if actively enrolled |
| `Rbac.PermissionsFor` | internal/rbac/rbac.go:82-110 | whatever order the map is ranged in: exactly the role's permissions, none twice, the named ones in the fixed order first |
| `Rbac.ListingArranges` | internal/rbac/rbac.go:82-110 | every possible answer has exactly the role's permissions, none twice |
| `Rbac.ListedInOrder` | internal/rbac/rbac.go:82-110 | in every answer the named permissions stand in the fixed order, before all others |
| `Rbac.StableListing` | internal/rbac/rbac.go:81-110 | the answer is the same on every call if and only if at most one of the role's permissions is missing from the order |
| `Rbac.TableInOrder` | internal/rbac/rbac.go:21-59 | with the program's own table the answer is the fixed order, filtered, for every role |
| `Rbac.ListedIffHeld` | internal/rbac/rbac.go:62-69 | a permission is listed for a role if and only if the check grants it |
| `Rbac.WhoIsPrivileged` | internal/rbac/rbac.go:21-59 | in the program's table only administrators manage users and courses, only they and teachers write courses, every known role has the rest and an unknown one nothing |
| `Rbac.HasAnyRole` | internal/rbac/rbac.go:72-79 | true if and only if the role is in the list |

## Left out

- HTTP handlers, routing, JSON, configuration, logging, metrics, server start and stop: plumbing.
- Postgres, S3, JWT issue and parsing, bcrypt, SHA-256, random generation: foreign code, replaced by the assumptions above.
- Interleaving of statements of concurrent calls: each call is atomic here, which the source leaves to constraints and luck.
- Store errors that the source ignores or passes on, apart from the one failure in `SubmitAttempt`.
- Integer widths: scores, points, positions and counts are unbounded here; Go's 64-bit `int` and the INTEGER columns are not modelled, nor the truncation of time to microseconds by the database.
- Assessment.StripQuestionSecrets: on values, so that two slices sharing an options array is not modelled; the in-place write is in the loop over a local copy.
- Transcript.TranscriptCourse: listing errors that the source skips over do not occur.
- Gradebook.Gradebook: the listings other than enrollments are parameters, as the repository returned them.
- AuthService.AuthService.IssueSession: generating a token and signing the access token do not fail.
- CommunicationService.CommunicationService.NotifyThreadParticipants: the outbox is a multiset, so the order in which notices were enqueued is not modelled.
- Curriculum.GetTree: listings succeed and come in position order; timestamps and the ids of parents are left out.
- Timestamps that only record creation and update, author names and post counts joined in by queries.
- Rubrics, and the `submitted` attempt status and `returned` submission status, which no call ever assigns.
- Direct messages, notification feeds, `ListQuizzes`, `ListMyAttempts`, `ListSubmissions` and other reading calls without state: they would only add easy members.
- Certificate issue and verification, curriculum editing, courses, enrollment, payments, media, live sessions, discovery, organizations, analytics: outside the core modelled here; what they may do to shared tables is an arbitrary step of the runs.
- Prerequisite cycles between lessons: the code only refuses a lesson naming itself.
