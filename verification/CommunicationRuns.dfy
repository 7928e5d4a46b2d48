/** Threads, announcements and notices over whole runs of the communication service. */
module CommunicationRuns {
  import opened Common
  import opened Enrollments
  import opened CommunicationStore

  // --- the invariant is kept -------------------------------------------------------------------

  lemma PublishKeepsInv(s: Tables, actor: string, id: nat, admin: bool)
    requires Inv(s)
    ensures Inv(PublishAnnouncement(s, actor, id, admin).0)
  {
    var (s', r) := PublishAnnouncement(s, actor, id, admin);
    if r.Ok? {
      var a := s.announcements[id];
      SendKeepsInv(s, PageUsers(s.enrollments, a.courseId) - {actor}, PublishMessage(a.(status := Published)));
    }
  }

  lemma NoticesAdded(outbox: multiset<Notice>, to: set<string>, m: Message)
    ensures forall n ::
      (outbox + Notices(to, m))[n] == outbox[n] + (if n.userId in to && n.message == m then 1 else 0)
    ensures forall n :: n in outbox + Notices(to, m) ==> n in outbox || n.message == m
  {
    forall n ensures (outbox + Notices(to, m))[n] == outbox[n] + (if n.userId in to && n.message == m then 1 else 0) {
      NoticesCount(to, m, n);
    }
  }

  /** Publishing a draft sends the first notices about it. */
  lemma SendKeepsInv(s: Tables, to: set<string>, m: Message)
    requires PublishInv(s.announcements, s.outbox, s.nextId)
    requires m.event == AnnouncementPublished && m.about in s.announcements && s.announcements[m.about].status == Draft
    ensures PublishInv(s.announcements[m.about := s.announcements[m.about].(status := Published)],
                       s.outbox + Notices(to, m), s.nextId)
  {
    NoticesAdded(s.outbox, to, m);
    hide Notices;
  }

  /** Notices about threads are no publish notices. */
  lemma OtherNoticesKeepInv(s: Tables, to: set<string>, m: Message, nextId: nat)
    requires PublishInv(s.announcements, s.outbox, s.nextId) && m.event != AnnouncementPublished && s.nextId <= nextId
    ensures PublishInv(s.announcements, s.outbox + Notices(to, m), nextId)
  {
    NoticesAdded(s.outbox, to, m);
    hide Notices;
  }

  lemma DraftKeepsInv(s: Tables, actor: string, courseId: string, title: string, body: string, pinned: bool,
                      admin: bool)
    requires Inv(s)
    ensures Inv(CreateAnnouncement(s, actor, courseId, title, body, pinned, admin).0)
  {
    hide OneSeatEach;
  }

  lemma EditDraftKeepsInv(s: Tables, actor: string, id: nat, title: string, body: string, pinned: bool, admin: bool)
    requires Inv(s)
    ensures Inv(UpdateAnnouncement(s, actor, id, title, body, pinned, admin).0)
  {
    hide OneSeatEach, DiscussionInv;
  }

  lemma WithdrawKeepsInv(s: Tables, actor: string, id: nat, admin: bool)
    requires Inv(s)
    ensures Inv(DeleteAnnouncement(s, actor, id, admin).0)
  {
    hide OneSeatEach, DiscussionInv;
  }

  lemma ThreadKeepsDiscussion(threads: map<nat, Thread>, posts: map<nat, Post>, t: Thread, p: Post)
    requires DiscussionInv(threads, posts, t.id) && p.id == t.id + 1 && p.threadId == t.id && p.parentId == None
    ensures DiscussionInv(threads[t.id := t], posts[p.id := p], t.id + 2)
  {
  }

  lemma CreateThreadKeepsInv(s: Tables, actor: string, courseId: string, title: string, body: string, admin: bool)
    requires Inv(s)
    ensures Inv(CreateThread(s, actor, courseId, title, body, admin).0)
  {
    var (s', r) := CreateThread(s, actor, courseId, title, body, admin);
    if r.Ok? {
      var t := r.value;
      ThreadKeepsDiscussion(s.threads, s.posts, t, Post(s.nextId + 1, t.id, actor, None, TrimSpace(body)));
      OtherNoticesKeepInv(s, {s.courses[courseId]} - {actor},
                          Message(NewThread, t.title, TrimSpace(body), t.id, courseId), s.nextId + 2);
    }
  }

  lemma PostKeepsDiscussion(threads: map<nat, Thread>, posts: map<nat, Post>, p: Post)
    requires DiscussionInv(threads, posts, p.id) && p.threadId in threads
    requires p.parentId.Some? ==> p.parentId.value in posts
    ensures DiscussionInv(threads, posts[p.id := p], p.id + 1)
  {
  }

  lemma CreatePostKeepsInv(s: Tables, actor: string, threadId: nat, body: string, parentId: Option<nat>, admin: bool)
    requires Inv(s)
    ensures Inv(CreatePost(s, actor, threadId, body, parentId, admin).0)
  {
    var (s', r) := CreatePost(s, actor, threadId, body, parentId, admin);
    if r.Ok? {
      var t := s.threads[threadId];
      PostKeepsDiscussion(s.threads, s.posts, r.value);
      var to := ReplyRecipients(Authors(s.posts[s.nextId := r.value], threadId), actor, Some(s.courses[t.courseId]),
                                t.authorId);
      OtherNoticesKeepInv(s, to, Message(Reply, t.title, r.value.body, threadId, t.courseId), s.nextId + 1);
    }
  }

  /** Deleting a post leaves no reply without its parent. */
  lemma DeleteKeepsInv(s: Tables, actor: string, postId: nat, admin: bool)
    requires Inv(s)
    ensures Inv(DeletePost(s, actor, postId, admin).0)
  {
  }

  lemma LockKeepsInv(s: Tables, actor: string, threadId: nat, admin: bool)
    requires Inv(s)
    ensures Inv(LockThread(s, actor, threadId, admin).0)
  {
  }

  lemma EditKeepsInv(s: Tables, actor: string, postId: nat, body: string, admin: bool)
    requires Inv(s)
    ensures Inv(UpdatePost(s, actor, postId, body, admin).0)
  {
  }

  lemma StepKeepsInv(s: Tables, op: Op)
    requires Inv(s)
    ensures Inv(Step(s, op).0)
  {
    hide Step, DiscussionInv, PublishInv, OneSeatEach;
    hide CreateAnnouncement, UpdateAnnouncement, PublishAnnouncement, DeleteAnnouncement;
    hide CreateThread, LockThread, CreatePost, UpdatePost, DeletePost;
    match op
    case CreateAnnouncementOp(actor, courseId, title, body, pinned, admin) =>
      CreateAnnouncementStep(s, op);
      DraftKeepsInv(s, actor, courseId, title, body, pinned, admin);
    case UpdateAnnouncementOp(actor, id, title, body, pinned, admin) =>
      UpdateAnnouncementStep(s, op);
      EditDraftKeepsInv(s, actor, id, title, body, pinned, admin);
    case PublishOp(actor, id, admin) =>
      PublishStep(s, op);
      PublishKeepsInv(s, actor, id, admin);
    case DeleteAnnouncementOp(actor, id, admin) =>
      DeleteAnnouncementStep(s, op);
      WithdrawKeepsInv(s, actor, id, admin);
    case CreateThreadOp(actor, courseId, title, body, admin) =>
      CreateThreadStep(s, op);
      CreateThreadKeepsInv(s, actor, courseId, title, body, admin);
    case LockOp(actor, threadId, admin) =>
      LockStep(s, op);
      LockKeepsInv(s, actor, threadId, admin);
    case CreatePostOp(actor, threadId, body, parentId, admin) =>
      CreatePostStep(s, op);
      CreatePostKeepsInv(s, actor, threadId, body, parentId, admin);
    case UpdatePostOp(actor, postId, body, admin) =>
      UpdatePostStep(s, op);
      EditKeepsInv(s, actor, postId, body, admin);
    case DeletePostOp(actor, postId, admin) =>
      DeletePostStep(s, op);
      DeleteKeepsInv(s, actor, postId, admin);
    case ElsewhereOp(_, _) => ElsewhereStep(s, op);
  }

  lemma {:induction false} RunKeepsInv(s: Tables, ops: seq<Op>)
    requires Inv(s)
    ensures Inv(Run(s, ops))
  {
    if ops != [] {
      RunKeepsInv(s, ops[..|ops| - 1]);
      StepKeepsInv(Run(s, ops[..|ops| - 1]), ops[|ops| - 1]);
    }
  }

  /** Over every run from the empty tables, however calls are repeated and announcements
      edited, published and deleted, each user gets at most one notice that a given
      announcement was published. */
  lemma PublishedOnce(ops: seq<Op>, n: Notice, m: Notice)
    requires n in Run(EMPTY, ops).outbox && m in Run(EMPTY, ops).outbox
    requires SamePublish(n.message, m.message) && n.userId == m.userId
    ensures n == m && Run(EMPTY, ops).outbox[n] == 1
  {
    RunKeepsInv(EMPTY, ops);
  }

  /** Calls about threads and posts leave the announcements alone. */
  lemma OtherCallsKeepAnnouncements(s: Tables, op: Op)
    requires !op.CreateAnnouncementOp? && !op.UpdateAnnouncementOp? && !op.PublishOp? && !op.DeleteAnnouncementOp?
    ensures Step(s, op).0.announcements == s.announcements && s.nextId <= Step(s, op).0.nextId
  {
    hide Step, LockThread, UpdatePost, DeletePost;
    match op
    case CreateThreadOp(_, _, _, _, _) => CreateThreadStep(s, op);
    case LockOp(_, _, _) => LockStep(s, op);
    case CreatePostOp(_, _, _, _, _) => CreatePostStep(s, op);
    case UpdatePostOp(_, _, _, _) => UpdatePostStep(s, op);
    case DeletePostOp(_, _, _) => DeletePostStep(s, op);
    case ElsewhereOp(_, _) => ElsewhereStep(s, op);
  }

  /** The announcement has been published, or published and deleted. */
  ghost predicate Spent(s: Tables, id: nat) {
    id < s.nextId && (id in s.announcements ==> s.announcements[id].status == Published)
  }

  lemma SpentStep(s: Tables, op: Op, id: nat)
    requires Inv(s) && Spent(s, id)
    ensures Spent(Step(s, op).0, id)
  {
    hide Step;
    match op
    case CreateAnnouncementOp(_, _, _, _, _, _) => CreateAnnouncementStep(s, op);
    case UpdateAnnouncementOp(_, _, _, _, _, _) => UpdateAnnouncementStep(s, op);
    case PublishOp(_, _, _) => PublishStep(s, op);
    case DeleteAnnouncementOp(_, _, _) => DeleteAnnouncementStep(s, op);
    case _ => OtherCallsKeepAnnouncements(s, op);
  }

  lemma {:induction false} SpentRun(s: Tables, ops: seq<Op>, id: nat)
    requires Inv(s) && Spent(s, id)
    ensures Spent(Run(s, ops), id)
  {
    if ops != [] {
      var before := ops[..|ops| - 1];
      SpentRun(s, before, id);
      RunKeepsInv(s, before);
      SpentStep(Run(s, before), ops[|ops| - 1], id);
    }
  }

  /** A published announcement is never published again: one fan-out in all. */
  lemma PublishSucceedsOnce(s: Tables, actor: string, id: nat, admin: bool, ops: seq<Op>, actor': string, admin': bool)
    requires Inv(s) && PublishAnnouncement(s, actor, id, admin).1.Ok?
    ensures PublishAnnouncement(Run(PublishAnnouncement(s, actor, id, admin).0, ops), actor', id, admin').1.Err?
  {
    hide Run;
    PublishKeepsInv(s, actor, id, admin);
    SpentRun(PublishAnnouncement(s, actor, id, admin).0, ops, id);
  }

  /** The announcement with this id, if there still is one, reads as given. */
  ghost predicate ReadsAs(s: Tables, id: nat, a: Announcement) {
    id < s.nextId && (id in s.announcements ==> s.announcements[id] == a)
  }

  lemma PublishedStep(s: Tables, op: Op, id: nat, a: Announcement)
    requires Inv(s) && ReadsAs(s, id, a) && a.status == Published
    ensures ReadsAs(Step(s, op).0, id, a)
  {
    hide Step;
    match op
    case CreateAnnouncementOp(_, _, _, _, _, _) => CreateAnnouncementStep(s, op);
    case UpdateAnnouncementOp(_, _, _, _, _, _) => UpdateAnnouncementStep(s, op);
    case PublishOp(_, _, _) => PublishStep(s, op);
    case DeleteAnnouncementOp(_, _, _) => DeleteAnnouncementStep(s, op);
    case _ => OtherCallsKeepAnnouncements(s, op);
  }

  /** Once published, an announcement never changes, in any run; it can only be deleted. */
  lemma {:induction false} PublishedForever(s: Tables, ops: seq<Op>, id: nat, a: Announcement)
    requires Inv(s) && ReadsAs(s, id, a) && a.status == Published
    ensures ReadsAs(Run(s, ops), id, a)
  {
    if ops != [] {
      var before := ops[..|ops| - 1];
      PublishedForever(s, before, id, a);
      RunKeepsInv(s, before);
      PublishedStep(Run(s, before), ops[|ops| - 1], id, a);
    }
  }

  lemma DeletedStep(s: Tables, op: Op, id: nat)
    requires id < s.nextId && id !in s.announcements
    ensures id < Step(s, op).0.nextId && id !in Step(s, op).0.announcements
  {
    hide Step;
    match op
    case CreateAnnouncementOp(_, _, _, _, _, _) => CreateAnnouncementStep(s, op);
    case UpdateAnnouncementOp(_, _, _, _, _, _) => UpdateAnnouncementStep(s, op);
    case PublishOp(_, _, _) => PublishStep(s, op);
    case DeleteAnnouncementOp(_, _, _) => DeleteAnnouncementStep(s, op);
    case _ => OtherCallsKeepAnnouncements(s, op);
  }

  /** A deleted announcement never comes back. */
  lemma {:induction false} DeletedForever(s: Tables, ops: seq<Op>, id: nat)
    requires id < s.nextId && id !in s.announcements
    ensures id < Run(s, ops).nextId && id !in Run(s, ops).announcements
  {
    if ops != [] {
      DeletedForever(s, ops[..|ops| - 1], id);
      DeletedStep(Run(s, ops[..|ops| - 1]), ops[|ops| - 1], id);
    }
  }

  // --- locked threads --------------------------------------------------------------------------------

  function PostsOf(posts: map<nat, Post>, threadId: nat): set<nat> {
    set p | p in posts && posts[p].threadId == threadId
  }

  /** The thread is locked, and has no posts but those named. */
  ghost predicate LockedWith(s: Tables, threadId: nat, posts: set<nat>) {
    threadId in s.threads && s.threads[threadId].status == Locked && PostsOf(s.posts, threadId) <= posts
  }

  lemma LockedPost(s: Tables, actor: string, threadId: nat, body: string, parentId: Option<nat>, admin: bool,
                   locked: nat, posts: set<nat>)
    requires DiscussionInv(s.threads, s.posts, s.nextId) && LockedWith(s, locked, posts)
    ensures LockedWith(CreatePost(s, actor, threadId, body, parentId, admin).0, locked, posts)
  {
  }

  lemma LockedStep(s: Tables, op: Op, threadId: nat, posts: set<nat>)
    requires DiscussionInv(s.threads, s.posts, s.nextId) && LockedWith(s, threadId, posts)
    ensures LockedWith(Step(s, op).0, threadId, posts)
  {
    hide Step, CreatePost;
    match op
    case CreateThreadOp(_, _, _, _, _) => CreateThreadStep(s, op);
    case LockOp(_, _, _) => LockStep(s, op);
    case CreatePostOp(actor, on, body, parentId, admin) =>
      CreatePostStep(s, op);
      LockedPost(s, actor, on, body, parentId, admin, threadId, posts);
    case UpdatePostOp(_, _, _, _) => UpdatePostStep(s, op);
    case DeletePostOp(_, _, _) => DeletePostStep(s, op);
    case _ => OtherCallsKeepThreads(s, op);
  }

  /** Calls about announcements leave the threads and posts alone. */
  lemma OtherCallsKeepThreads(s: Tables, op: Op)
    requires !op.CreateThreadOp? && !op.LockOp? && !op.CreatePostOp? && !op.UpdatePostOp? && !op.DeletePostOp?
    ensures Step(s, op).0.threads == s.threads && Step(s, op).0.posts == s.posts
  {
    hide Step, CreateAnnouncement, UpdateAnnouncement, PublishAnnouncement, DeleteAnnouncement;
    match op
    case CreateAnnouncementOp(_, _, _, _, _, _) => CreateAnnouncementStep(s, op);
    case UpdateAnnouncementOp(_, _, _, _, _, _) => UpdateAnnouncementStep(s, op);
    case PublishOp(_, _, _) => PublishStep(s, op);
    case DeleteAnnouncementOp(_, _, _) => DeleteAnnouncementStep(s, op);
    case ElsewhereOp(_, _) => ElsewhereStep(s, op);
  }

  /** A locked thread never opens again and never gains a post, in any run. */
  lemma {:induction false} LockedForever(s: Tables, ops: seq<Op>, threadId: nat)
    requires Inv(s) && threadId in s.threads && s.threads[threadId].status == Locked
    ensures LockedWith(Run(s, ops), threadId, PostsOf(s.posts, threadId))
  {
    if ops != [] {
      var before := ops[..|ops| - 1];
      LockedForever(s, before, threadId);
      RunKeepsInv(s, before);
      LockedStep(Run(s, before), ops[|ops| - 1], threadId, PostsOf(s.posts, threadId));
    }
  }

  // --- which posts stay --------------------------------------------------------------------------------

  /** The call deletes the post, itself or with a post above it, in whatever thread. */
  ghost predicate Removes(s: Tables, op: Op, p: nat) {
    op.DeletePostOp? && PostError(s, op.actor, op.postId, op.admin) == None && Under(s.posts, p, op.postId)
  }

  lemma StepRemoves(s: Tables, op: Op, p: nat)
    requires p < s.nextId
    ensures p < Step(s, op).0.nextId
    ensures p in Step(s, op).0.posts <==> p in s.posts && !Removes(s, op, p)
  {
    hide Step, Under, PostError;
    match op
    case CreateThreadOp(_, _, _, _, _) => CreateThreadStep(s, op);
    case LockOp(_, _, _) => LockStep(s, op);
    case CreatePostOp(_, _, _, _, _) => CreatePostStep(s, op);
    case UpdatePostOp(actor, postId, _, admin) =>
      UpdatePostStep(s, op);
      ErrorUnlessThere(s, actor, postId, admin);
    case DeletePostOp(_, _, _) => DeletePostStep(s, op);
    case _ =>
      OtherCallsKeepThreads(s, op);
      IdsOnlyGrow(s, op);
  }

  lemma ErrorUnlessThere(s: Tables, actor: string, postId: nat, admin: bool)
    ensures PostError(s, actor, postId, admin) == None ==> postId in s.posts
  {
  }

  lemma IdsOnlyGrow(s: Tables, op: Op)
    ensures s.nextId <= Step(s, op).0.nextId
  {
    hide Step;
    match op
    case CreateAnnouncementOp(_, _, _, _, _, _) => CreateAnnouncementStep(s, op);
    case UpdateAnnouncementOp(_, _, _, _, _, _) => UpdateAnnouncementStep(s, op);
    case PublishOp(_, _, _) => PublishStep(s, op);
    case DeleteAnnouncementOp(_, _, _) => DeleteAnnouncementStep(s, op);
    case _ => OtherCallsKeepAnnouncements(s, op);
  }

  /** Call k of the run deletes the post. */
  ghost predicate RemovedAt(s: Tables, ops: seq<Op>, k: nat, p: nat)
    requires k < |ops|
  {
    Removes(Run(s, ops[..k]), ops[k], p)
  }

  /** In every run a post stays exactly as long as no call deletes it or a post above it.
      Nothing is asked of the threads: the post above may stand in another thread, and
      locking a thread does not keep its posts. */
  lemma {:induction false} PostStays(s: Tables, ops: seq<Op>, p: nat)
    requires p in s.posts && p < s.nextId
    ensures p < Run(s, ops).nextId
    ensures p in Run(s, ops).posts <==> !exists k :: 0 <= k < |ops| && RemovedAt(s, ops, k, p)
  {
    hide Step, Removes;
    if ops != [] {
      var n := |ops| - 1;
      PostStays(s, ops[..n], p);
      forall k | 0 <= k < n ensures RemovedAt(s, ops[..n], k, p) <==> RemovedAt(s, ops, k, p) {
        assert ops[..n][..k] == ops[..k];
      }
      StepRemoves(Run(s, ops[..n]), ops[n], p);
      assert RemovedAt(s, ops, n, p) <==> Removes(Run(s, ops[..n]), ops[n], p);
    }
  }

  /** So one call changes which posts a locked thread holds exactly when it deletes a post
      that one of them stands under. */
  lemma LockedLoses(s: Tables, op: Op, threadId: nat)
    requires DiscussionInv(s.threads, s.posts, s.nextId) && LockedWith(s, threadId, PostsOf(s.posts, threadId))
    ensures PostsOf(Step(s, op).0.posts, threadId) != PostsOf(s.posts, threadId) <==>
      exists p :: p in PostsOf(s.posts, threadId) && Removes(s, op, p)
  {
    hide Step, Removes;
    var before, after := PostsOf(s.posts, threadId), PostsOf(Step(s, op).0.posts, threadId);
    LockedStep(s, op, threadId, before);
    forall p | p in before ensures p in after <==> !Removes(s, op, p) {
      StepRemoves(s, op, p);
      if !Removes(s, op, p) { PostChanges(s, op, p); }
    }
  }

  // --- who hears what ------------------------------------------------------------------------------------

  lemma AuthorsGrow(posts: map<nat, Post>, p: Post)
    requires p.id !in posts
    ensures Authors(posts[p.id := p], p.threadId) == Authors(posts, p.threadId) + {p.authorId}
  {
    var after := posts[p.id := p];
    forall u | u in Authors(posts, p.threadId) ensures u in Authors(after, p.threadId) {
      var q :| q in posts && posts[q].threadId == p.threadId && posts[q].authorId == u;
      assert after[q].authorId == u;
    }
    assert after[p.id].authorId == p.authorId;
  }

  /** The user has a post in the thread. */
  ghost predicate Participates(posts: map<nat, Post>, userId: string, threadId: nat) {
    exists p :: p in posts && posts[p].threadId == threadId && posts[p].authorId == userId
  }

  lemma AuthorsParticipate(posts: map<nat, Post>, threadId: nat, userId: string)
    ensures userId in Authors(posts, threadId) <==> Participates(posts, userId, threadId)
  {
  }

  /** A reply sends each user at most one notice, and the user gets it exactly when not
      the one replying and either the course's teacher or a participant other than the one
      who opened the thread. Nothing else is enqueued. */
  lemma ReplyNotices(s: Tables, actor: string, threadId: nat, body: string, parentId: Option<nat>, admin: bool,
                     n: Notice)
    requires Inv(s) && CreatePost(s, actor, threadId, body, parentId, admin).1.Ok?
    ensures var t, s' := s.threads[threadId], CreatePost(s, actor, threadId, body, parentId, admin).0;
      var hears := n.userId != actor
        && (n.userId == s.courses[t.courseId]
            || (Participates(s.posts, n.userId, threadId) && n.userId != t.authorId));
      s'.outbox[n]
        == s.outbox[n] + (if hears && n.message == Message(Reply, t.title, TrimSpace(body), threadId, t.courseId)
                          then 1 else 0)
  {
    AuthorsParticipate(s.posts, threadId, n.userId);
    hide Authors, Notices, Participates;
    var t, p := s.threads[threadId], Post(s.nextId, threadId, actor, parentId, TrimSpace(body));
    AuthorsGrow(s.posts, p);
    var to := ReplyRecipients(Authors(s.posts[p.id := p], threadId), actor, Some(s.courses[t.courseId]), t.authorId);
    NoticesCount(to, Message(Reply, t.title, TrimSpace(body), threadId, t.courseId), n);
  }

  /** A new thread sends exactly one notice, to the teacher, and none if the teacher opens it. */
  lemma ThreadNotices(s: Tables, actor: string, courseId: string, title: string, body: string, admin: bool, n: Notice)
    requires CreateThread(s, actor, courseId, title, body, admin).1.Ok?
    ensures var (s', r) := CreateThread(s, actor, courseId, title, body, admin);
      var hears := n.userId == s.courses[courseId] && n.userId != actor;
      s'.outbox[n] == s.outbox[n]
        + (if hears && n.message == Message(NewThread, TrimSpace(title), TrimSpace(body), r.value.id, courseId)
           then 1 else 0)
  {
    NoticesCount({s.courses[courseId]} - {actor},
                 Message(NewThread, TrimSpace(title), TrimSpace(body), s.nextId, courseId), n);
  }

  /** So the one who opened a thread never hears of a reply by someone else, unless
      teaching the course: documentation that promises it to every participant is wrong. */
  lemma ThreadAuthorUnheard(s: Tables, actor: string, threadId: nat, body: string, parentId: Option<nat>, admin: bool,
                            n: Notice)
    requires Inv(s) && CreatePost(s, actor, threadId, body, parentId, admin).1.Ok?
      && n.userId == s.threads[threadId].authorId
    ensures CreatePost(s, actor, threadId, body, parentId, admin).0.outbox[n] > s.outbox[n] ==>
      n.userId == s.courses[s.threads[threadId].courseId] && n.userId != actor
  {
    ReplyNotices(s, actor, threadId, body, parentId, admin, n);
  }

  /** Publishing sends each learner on the fetched page, other than the publisher, exactly
      one notice, and enqueues nothing else. */
  lemma PublishNotices(s: Tables, actor: string, id: nat, admin: bool, n: Notice)
    requires PublishAnnouncement(s, actor, id, admin).1.Ok?
    ensures var a, s' := s.announcements[id], PublishAnnouncement(s, actor, id, admin).0;
      var hears := n.userId != actor && n.userId in PageUsers(s.enrollments, a.courseId);
      s'.outbox[n]
        == s.outbox[n] + (if hears && n.message == Message(AnnouncementPublished, a.title, a.body, a.id, a.courseId)
                          then 1 else 0)
  {
    var a := s.announcements[id];
    NoticesCount(PageUsers(s.enrollments, a.courseId) - {actor}, PublishMessage(a), n);
  }

  /** One row a learner. */
  lemma ListedOnce(rows: seq<Enrollment>, courseId: string)
    requires OneSeatEach(rows)
    ensures NoDuplicates(UsersOf(NewestFirst(rows, ActiveIn(courseId))))
  {
    var active := NewestFirst(rows, ActiveIn(courseId));
    NewestFirstIs(rows, ActiveIn(courseId));
    forall i | 0 <= i < |active| ensures active[i].courseId == courseId {
      assert active[i] in active;
    }
  }

  lemma PageIs(rows: seq<Enrollment>, courseId: string)
    requires OneSeatEach(rows)
    ensures NoDuplicates(UsersOf(ListByCourse(rows, courseId, PAGE)))
  {
    ListedOnce(rows, courseId);
    var active := NewestFirst(rows, ActiveIn(courseId));
    assert forall i :: 0 <= i < |ListByCourse(rows, courseId, PAGE)| ==>
      UsersOf(ListByCourse(rows, courseId, PAGE))[i] == UsersOf(active)[i];
  }

  /** Cutting a list of distinct users after 20 loses nobody but the actor. */
  lemma CutLoses(users: seq<string>, actor: string)
    requires NoDuplicates(users) && |users| > 20
    ensures Elements(users[..20]) - {actor} == Elements(users) - {actor} <==> |users| == 21 && users[20] == actor
  {
    if |users| == 21 && users[20] == actor {
      assert users == users[..20] + [actor];
    } else {
      var k := if users[20] != actor then 20 else 21;
      assert users[k] in users && users[k] != actor;
      assert users[k] in Elements(users) - {actor} && users[k] !in Elements(users[..20]) - {actor};
    }
  }

  /** The learners with an active enrollment in the course. */
  ghost function ActiveUsers(rows: seq<Enrollment>, courseId: string): set<string> {
    set e | e in rows && e.courseId == courseId && e.status == Active :: e.userId
  }

  lemma ActiveUsersListed(rows: seq<Enrollment>, courseId: string)
    ensures ActiveUsers(rows, courseId) == Elements(UsersOf(NewestFirst(rows, ActiveIn(courseId))))
  {
    var active := NewestFirst(rows, ActiveIn(courseId));
    NewestFirstIs(rows, ActiveIn(courseId));
    forall u | u in ActiveUsers(rows, courseId) ensures u in UsersOf(active) {
      var e :| e in rows && e.courseId == courseId && e.status == Active && e.userId == u;
      assert e in active;
      var i :| 0 <= i < |active| && active[i] == e;
      assert UsersOf(active)[i] == u;
    }
    forall u | u in UsersOf(active) ensures u in ActiveUsers(rows, courseId) {
      var i :| 0 <= i < |active| && UsersOf(active)[i] == u;
      assert active[i] in active;
    }
  }

  /** The announcement reaches every active learner other than the publisher exactly when
      at most 20 are active, or 21 of whom the publisher enrolled first: the page of 1000
      the service asks for is replaced by the 20 newest. */
  lemma FanOutReachesAll(rows: seq<Enrollment>, courseId: string, actor: string)
    requires OneSeatEach(rows)
    ensures var active := NewestFirst(rows, ActiveIn(courseId));
      PageUsers(rows, courseId) - {actor} == ActiveUsers(rows, courseId) - {actor} <==>
        |active| <= 20 || (|active| == 21 && active[20].userId == actor)
  {
    var active := NewestFirst(rows, ActiveIn(courseId));
    ActiveUsersListed(rows, courseId);
    ListedOnce(rows, courseId);
    if |active| > 20 {
      assert UsersOf(active[..20]) == UsersOf(active)[..20];
      CutLoses(UsersOf(active), actor);
    }
  }

  // --- who changes posts -------------------------------------------------------------------------------------

  /** The actor wrote the post or manages its course. */
  ghost predicate MayChange(s: Tables, actor: string, postId: nat, admin: bool) {
    && postId in s.posts && s.posts[postId].threadId in s.threads
    && (s.posts[postId].authorId == actor
        || WriteError(s.courses, actor, s.threads[s.posts[postId].threadId].courseId, admin) == None)
  }

  lemma OtherCallsKeepPosts(s: Tables, op: Op, p: nat)
    requires DiscussionInv(s.threads, s.posts, s.nextId) && p in s.posts && !op.UpdatePostOp? && !op.DeletePostOp?
    ensures p in Step(s, op).0.posts && Step(s, op).0.posts[p] == s.posts[p]
  {
    hide Step;
    match op
    case CreateThreadOp(_, _, _, _, _) => CreateThreadStep(s, op);
    case LockOp(_, _, _) => LockStep(s, op);
    case CreatePostOp(_, _, _, _, _) => CreatePostStep(s, op);
    case _ => OtherCallsKeepThreads(s, op);
  }

  /** A post goes only with the deletion of itself or of a post above it, and changes only
      in its text; either is done by that post's author or someone managing the course. */
  lemma PostChanges(s: Tables, op: Op, p: nat)
    requires DiscussionInv(s.threads, s.posts, s.nextId) && p in s.posts
    ensures var after := Step(s, op).0.posts;
      if p !in after then op.DeletePostOp? && Under(s.posts, p, op.postId)
        && MayChange(s, op.actor, op.postId, op.admin)
      else after[p] == s.posts[p] || (op.UpdatePostOp? && op.postId == p && MayChange(s, op.actor, p, op.admin)
                                      && after[p] == s.posts[p].(body := TrimSpace(op.body)))
  {
    hide Step, DiscussionInv, Under;
    if op.UpdatePostOp? {
      UpdatePostStep(s, op);
    } else if op.DeletePostOp? {
      DeletePostStep(s, op);
    } else {
      OtherCallsKeepPosts(s, op, p);
    }
  }
}
