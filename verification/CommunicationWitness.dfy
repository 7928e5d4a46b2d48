/** Runs of the communication service: a thread's author is not told of a reply, a locked
    thread loses a post, and an announcement misses learners. */
module CommunicationWitness {
  import opened Common
  import opened Enrollments
  import opened CommunicationStore
  import opened CommunicationRuns

  function Learner(userId: string): Enrollment {
    Enrollment("c", userId, Active, "", "", "", "")
  }

  const LEARNERS := [Learner("a"), Learner("b")]
  const COURSE := ElsewhereOp(map["c" := "t"], LEARNERS)
  const OPENING := CreateThreadOp("a", "c", "q", "x", false)
  const ANSWER := CreatePostOp("b", 0, "y", None, false)

  lemma Trimmed()
    ensures TrimSpace("q") == "q" && TrimSpace("x") == "x" && TrimSpace("y") == "y"
  {
    assert TrimLeft("q") == "q" && TrimLeft("x") == "x" && TrimLeft("y") == "y";
  }

  lemma OneMore(ops: seq<Op>, s: Tables, op: Op, s': Tables)
    requires Run(EMPTY, ops) == s && Step(s, op).0 == s'
    ensures Run(EMPTY, ops + [op]) == s'
  {
    assert (ops + [op])[..|ops|] == ops;
  }

  /** The course with its two learners. */
  function Course(): Tables {
    EMPTY.(courses := map["c" := "t"], enrollments := LEARNERS)
  }

  lemma CourseSet()
    ensures Step(EMPTY, COURSE).0 == Course() && Inv(Course())
  {
  }

  ghost predicate Opened(s: Tables) {
    && Inv(s) && s.courses == map["c" := "t"] && s.enrollments == LEARNERS
    && s.threads == map[0 := Thread(0, "c", "a", "q", Open)]
    && forall n: Notice :: n.userId == "a" ==> n !in s.outbox
  }

  lemma ThreadOpened()
    ensures Opened(CreateThread(Course(), "a", "c", "q", "x", false).0)
  {
    Trimmed();
    CourseSet();
    CreateThreadKeepsInv(Course(), "a", "c", "q", "x", false);
    assert LEARNERS[0] == Learner("a") && ReadError(Course(), "a", "c", false) == None;
    forall n: Notice | n.userId == "a" ensures n !in CreateThread(Course(), "a", "c", "q", "x", false).0.outbox {
      ThreadNotices(Course(), "a", "c", "q", "x", false, n);
    }
  }

  lemma Answered(s: Tables)
    requires Opened(s)
    ensures CreatePost(s, "b", 0, "y", None, false).1.Ok?
    ensures forall n: Notice :: n.userId == "a" ==> n !in CreatePost(s, "b", 0, "y", None, false).0.outbox
  {
    hide Replied, DiscussionInv, PublishInv, OneSeatEach;
    Trimmed();
    assert LEARNERS[1] == Learner("b") && ReadError(s, "b", "c", false) == None;
    forall n: Notice | n.userId == "a" ensures n !in CreatePost(s, "b", 0, "y", None, false).0.outbox {
      ReplyNotices(s, "b", 0, "y", None, false, n);
    }
  }

  /** There is a run in which a learner opens a thread, another one replies, and the opener
      gets no notice at all. */
  lemma OpenerUnheard() returns (ops: seq<Op>, reply: Op)
    ensures reply.CreatePostOp?
    ensures var before, after := Run(EMPTY, ops), Run(EMPTY, ops + [reply]);
      && Step(before, reply).1 == None && reply.threadId in before.threads
      && before.threads[reply.threadId].authorId != reply.actor
      && forall n: Notice :: n.userId == before.threads[reply.threadId].authorId ==> n !in after.outbox
  {
    var s := OpeningRun();
    ThreadOpened();
    Answered(s);
    AnswerStep(s);
    ops, reply := [] + [COURSE] + [OPENING], ANSWER;
    OneMore(ops, s, reply, CreatePost(s, "b", 0, "y", None, false).0);
  }

  lemma AnswerStep(s: Tables)
    ensures Step(s, ANSWER).0 == CreatePost(s, "b", 0, "y", None, false).0
    ensures Step(s, ANSWER).1 == ToError(CreatePost(s, "b", 0, "y", None, false).1)
  {
  }

  lemma OpeningRun() returns (s: Tables)
    ensures s == CreateThread(Course(), "a", "c", "q", "x", false).0
    ensures s == Run(EMPTY, [] + [COURSE] + [OPENING])
  {
    s := CreateThread(Course(), "a", "c", "q", "x", false).0;
    CourseSet();
    OneMore([], EMPTY, COURSE, Course());
    OpeningStep(Course());
    OneMore([] + [COURSE], Course(), OPENING, s);
  }

  lemma OpeningStep(s: Tables)
    ensures Step(s, OPENING).0 == CreateThread(s, "a", "c", "q", "x", false).0
  {
  }

  // --- a locked thread loses a post -------------------------------------------------------------------

  const SECOND := CreateThreadOp("b", "c", "q", "x", false)
  const CROSS := CreatePostOp("b", 2, "y", Some(1), false)
  const LOCK := LockOp("t", 2, false)
  const DELETE := DeletePostOp("a", 1, false)

  const FIRST_THREAD := Thread(0, "c", "a", "q", Open)
  const SECOND_THREAD := Thread(2, "c", "b", "q", Open)
  const FIRST_POST := Post(1, 0, "a", None, "x")
  const SECOND_POST := Post(3, 2, "b", None, "x")
  const CROSS_POST := Post(4, 2, "b", Some(1), "y")

  /** The run leads to the course with these threads and posts, whatever was enqueued. */
  ghost predicate Leads(ops: seq<Op>, threads: map<nat, Thread>, posts: map<nat, Post>, nextId: nat) {
    Shows(Run(EMPTY, ops), threads, posts, nextId)
  }

  ghost predicate Shows(s: Tables, threads: map<nat, Thread>, posts: map<nat, Post>, nextId: nat) {
    && s.courses == map["c" := "t"] && s.enrollments == LEARNERS
    && s.threads == threads && s.posts == posts && s.nextId == nextId
  }

  lemma Leading(ops: seq<Op>, op: Op, threads: map<nat, Thread>, posts: map<nat, Post>, nextId: nat)
    requires Shows(Step(Run(EMPTY, ops), op).0, threads, posts, nextId)
    ensures Leads(ops + [op], threads, posts, nextId)
  {
    hide Step, Shows;
    OneMore(ops, Run(EMPTY, ops), op, Step(Run(EMPTY, ops), op).0);
  }

  lemma BothLearn(s: Tables)
    requires s.courses == map["c" := "t"] && s.enrollments == LEARNERS
    ensures ReadError(s, "a", "c", false) == None && ReadError(s, "b", "c", false) == None
  {
    assert LEARNERS[0] == Learner("a") && LEARNERS[1] == Learner("b");
  }

  lemma TwoThreads() returns (ops: seq<Op>)
    ensures Leads(ops, map[0 := FIRST_THREAD, 2 := SECOND_THREAD], map[1 := FIRST_POST, 3 := SECOND_POST], 4)
  {
    hide Step, Run, ReadError;
    ops := [] + [COURSE];
    CourseSet();
    Empty();
    Leading([], COURSE, map[], map[], 0);
    var s := Run(EMPTY, ops);
    Trimmed();
    BothLearn(s);
    CreateThreadStep(s, OPENING);
    Leading(ops, OPENING, map[0 := FIRST_THREAD], map[1 := FIRST_POST], 2);
    s, ops := Run(EMPTY, ops + [OPENING]), ops + [OPENING];
    BothLearn(s);
    CreateThreadStep(s, SECOND);
    assert map[1 := FIRST_POST][3 := SECOND_POST] == map[1 := FIRST_POST, 3 := SECOND_POST];
    assert map[0 := FIRST_THREAD][2 := SECOND_THREAD] == map[0 := FIRST_THREAD, 2 := SECOND_THREAD];
    Leading(ops, SECOND, map[0 := FIRST_THREAD, 2 := SECOND_THREAD], map[1 := FIRST_POST, 3 := SECOND_POST], 4);
    ops := ops + [SECOND];
  }

  lemma Empty()
    ensures Run(EMPTY, []) == EMPTY
  {
  }

  const LOCKED_THREADS := map[0 := FIRST_THREAD, 2 := SECOND_THREAD.(status := Locked)]
  const ALL_POSTS := map[1 := FIRST_POST, 3 := SECOND_POST, 4 := CROSS_POST]

  lemma CrossAndLock() returns (ops: seq<Op>)
    ensures Leads(ops, LOCKED_THREADS, ALL_POSTS, 5)
  {
    hide Step, Run, ReadError;
    ops := TwoThreads();
    var s := Run(EMPTY, ops);
    Trimmed();
    BothLearn(s);
    CreatePostStep(s, CROSS);
    assert s.posts[4 := CROSS_POST] == ALL_POSTS;
    Leading(ops, CROSS, s.threads, ALL_POSTS, 5);
    s, ops := Run(EMPTY, ops + [CROSS]), ops + [CROSS];
    LockStep(s, LOCK);
    assert s.threads[2 := SECOND_THREAD.(status := Locked)] == LOCKED_THREADS;
    Leading(ops, LOCK, LOCKED_THREADS, ALL_POSTS, 5);
    ops := ops + [LOCK];
  }

  /** There is a run in which a learner deletes a post of an open thread, and with it goes
      another learner's post of a locked thread. */
  lemma LockedThreadLosesPost() returns (ops: seq<Op>, p: nat)
    ensures var s := Run(EMPTY, ops);
      && DELETE.postId in s.posts && s.posts[DELETE.postId].threadId in s.threads
      && s.threads[s.posts[DELETE.postId].threadId].status == Open
      && p in s.posts && s.posts[p].authorId != DELETE.actor
      && s.posts[p].threadId in s.threads && s.threads[s.posts[p].threadId].status == Locked
      && Step(s, DELETE).1 == None && p !in Step(s, DELETE).0.posts
  {
    hide Step, Run;
    ops := CrossAndLock();
    p := 4;
    DeletePostStep(Run(EMPTY, ops), DELETE);
    assert Under(ALL_POSTS, 1, 1);
  }

  // --- a fan-out that misses learners --------------------------------------------------------------------

  /** A course of n learners, the one without a name the oldest. */
  function Roll(n: nat): (r: seq<Enrollment>)
    ensures |r| == n
    ensures forall i :: 0 <= i < n ==> r[i].courseId == "c" && r[i].status == Active && |r[i].userId| == i
  {
    if n == 0 then [] else Roll(n - 1) + [Learner(Name(n - 1))]
  }

  lemma OldestNotOnPage()
    ensures "" !in PageUsers(Roll(22), "c") && OneSeatEach(Roll(22)) && Roll(22)[0].userId == ""
  {
    hide Roll;
    AllWanted(Roll(22), ActiveIn("c"));
    var users := UsersOf(ListByCourse(Roll(22), "c", PAGE));
    forall i | 0 <= i < |users| ensures |users[i]| == 21 - i {}
  }

  const FULL_COURSE := ElsewhereOp(map["c" := "t"], Roll(22))
  const DRAFTING := CreateAnnouncementOp("t", "c", "q", "x", false, false)
  const PUBLISHING := PublishOp("t", 0, false)

  function WithDraft(): Tables {
    EMPTY.(courses := map["c" := "t"], enrollments := Roll(22),
           announcements := map[0 := Announcement(0, "c", "t", "q", "x", Draft, false)], nextId := 1)
  }

  lemma DraftRun() returns (ops: seq<Op>)
    ensures Run(EMPTY, ops) == WithDraft()
  {
    hide Run, OneSeatEach;
    OldestNotOnPage();
    Trimmed();
    Empty();
    var s := EMPTY.(courses := map["c" := "t"], enrollments := Roll(22));
    assert Step(EMPTY, FULL_COURSE).0 == s;
    OneMore([], EMPTY, FULL_COURSE, s);
    CreateAnnouncementStep(s, DRAFTING);
    OneMore([] + [FULL_COURSE], s, DRAFTING, WithDraft());
    ops := [] + [FULL_COURSE] + [DRAFTING];
  }

  /** There is a run in which an announcement is published to a course of 22 learners and one
      of them gets no notice at all. */
  lemma LearnerUnreached() returns (ops: seq<Op>, learner: Enrollment)
    ensures var s, s' := Run(EMPTY, ops), Run(EMPTY, ops + [PUBLISHING]);
      && Step(s, PUBLISHING).1 == None && PUBLISHING.id in s.announcements
      && learner in s.enrollments && learner.status == Active
      && learner.courseId == s.announcements[PUBLISHING.id].courseId && learner.userId != PUBLISHING.actor
      && forall n: Notice :: n.userId == learner.userId ==> n !in s'.outbox
  {
    hide Step, Run;
    ops := DraftRun();
    OldestNotOnPage();
    learner := Roll(22)[0];
    var s := WithDraft();
    PublishStep(s, PUBLISHING);
    OneMore(ops, s, PUBLISHING, PublishAnnouncement(s, "t", 0, false).0);
    forall n: Notice | n.userId == "" ensures n !in PublishAnnouncement(s, "t", 0, false).0.outbox {
      PublishNotices(s, "t", 0, false, n);
    }
  }
}
