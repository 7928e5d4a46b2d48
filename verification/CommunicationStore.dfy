/** Announcements, discussion threads and the notices they send
    (internal/service/communication.go over internal/repository/postgres/communication.go
    and migrations/000014). Every call is one atomic step; row ids come from a counter, so
    an id is never handed out twice; the outbox is the collection of notices enqueued. */
module CommunicationStore {
  import opened Common
  import opened Enrollments

  datatype AnnouncementStatus = Draft | Published

  datatype Announcement = Announcement(
    id: nat, courseId: string, authorId: string, title: string, body: string, status: AnnouncementStatus, pinned: bool)

  datatype ThreadStatus = Open | Locked

  datatype Thread = Thread(id: nat, courseId: string, authorId: string, title: string, status: ThreadStatus)

  datatype Post = Post(id: nat, threadId: nat, authorId: string, parentId: Option<nat>, body: string)

  datatype Event = AnnouncementPublished | NewThread | Reply

  /** What a notice says, and the announcement or thread it is about. */
  datatype Message = Message(event: Event, subject: string, body: string, about: nat, courseId: string)

  datatype Notice = Notice(userId: string, message: Message)

  /** `courses` holds each course's teacher. */
  datatype Tables = Tables(
    courses: map<string, string>,
    enrollments: seq<Enrollment>,
    announcements: map<nat, Announcement>,
    threads: map<nat, Thread>,
    posts: map<nat, Post>,
    outbox: multiset<Notice>,
    nextId: nat)

  const PAGE := 1000

  predicate Enrolled(rows: seq<Enrollment>, userId: string, courseId: string) {
    exists i :: 0 <= i < |rows| && rows[i].courseId == courseId && rows[i].userId == userId && rows[i].status == Active
  }

  /** Why the actor may not read the course's discussions, if so. */
  function ReadError(s: Tables, actor: string, courseId: string, admin: bool): Option<Error> {
    if courseId !in s.courses then Some(NotFound)
    else if admin || s.courses[courseId] == actor || Enrolled(s.enrollments, actor, courseId) then None
    else Some(Forbidden)
  }

  // --- notices ---------------------------------------------------------------------------

  /** The message, once to each of the users. */
  ghost function Notices(users: set<string>, message: Message): multiset<Notice> {
    multiset(set u | u in users :: Notice(u, message))
  }

  lemma NoticesCount(users: set<string>, message: Message, n: Notice)
    ensures Notices(users, message)[n] == if n.userId in users && n.message == message then 1 else 0
  {
    var all := set u | u in users :: Notice(u, message);
    assert n in all <==> n.userId in users && n.message == message;
  }

  function UsersOf(rows: seq<Enrollment>): seq<string> {
    seq(|rows|, i requires 0 <= i < |rows| => rows[i].userId)
  }

  /** The learners a course-wide message goes to: those on the page that is fetched. */
  ghost function PageUsers(rows: seq<Enrollment>, courseId: string): set<string> {
    Elements(UsersOf(ListByCourse(rows, courseId, PAGE)))
  }

  function Authors(posts: map<nat, Post>, threadId: nat): set<string> {
    set p | p in posts && posts[p].threadId == threadId :: posts[p].authorId
  }

  function TeacherOf(courses: map<string, string>, courseId: string): Option<string> {
    if courseId in courses then Some(courses[courseId]) else None
  }

  /** Who hears of a reply: the participants other than the one replying and the one who
      opened the thread; and the teacher, unless replying. */
  function ReplyRecipients(participants: set<string>, actor: string, teacher: Option<string>,
                           threadAuthor: string): set<string> {
    var others := participants - {actor, threadAuthor};
    match teacher
    case None => others
    case Some(t) => if t == actor then others else others + {t}
  }

  // --- announcements ------------------------------------------------------------------------

  function CreateAnnouncement(s: Tables, actor: string, courseId: string, title: string, body: string, pinned: bool,
                              admin: bool)
    : (r: (Tables, Result<Announcement>))
    ensures r.0 == s.(announcements := r.0.announcements, nextId := r.0.nextId)
  {
    var error := WriteError(s.courses, actor, courseId, admin);
    if error.Some? then (s, Err(error.value))
    else if TrimSpace(title) == "" then (s, Err(Validation))
    else
      var a := Announcement(s.nextId, courseId, actor, TrimSpace(title), TrimSpace(body), Draft, pinned);
      (s.(announcements := s.announcements[a.id := a], nextId := s.nextId + 1), Ok(a))
  }

  /** Only a draft can be edited: the repository's update matches no other row. */
  function UpdateAnnouncement(s: Tables, actor: string, id: nat, title: string, body: string, pinned: bool, admin: bool)
    : (r: (Tables, Result<Announcement>))
    ensures r.0 == s.(announcements := r.0.announcements)
  {
    if id !in s.announcements then (s, Err(NotFound))
    else
      var a := s.announcements[id];
      var error := WriteError(s.courses, actor, a.courseId, admin);
      if error.Some? then (s, Err(error.value))
      else if TrimSpace(title) == "" then (s, Err(Validation))
      else if a.status != Draft then (s, Err(Validation))
      else
        var a' := a.(title := TrimSpace(title), body := TrimSpace(body), pinned := pinned);
        (s.(announcements := s.announcements[id := a']), Ok(a'))
  }

  /** The notice an announcement sends when it is published. */
  function PublishMessage(a: Announcement): Message {
    Message(AnnouncementPublished, a.title, a.body, a.id, a.courseId)
  }

  ghost function PublishAnnouncement(s: Tables, actor: string, id: nat, admin: bool)
    : (r: (Tables, Result<Announcement>))
    ensures r.0 == s.(announcements := r.0.announcements, outbox := r.0.outbox)
  {
    if id !in s.announcements then (s, Err(NotFound))
    else
      var a := s.announcements[id];
      var error := WriteError(s.courses, actor, a.courseId, admin);
      if error.Some? then (s, Err(error.value))
      else if a.status != Draft then (s, Err(Validation))
      else
        var a' := a.(status := Published);
        (s.(announcements := s.announcements[id := a'],
            outbox := s.outbox + Notices(PageUsers(s.enrollments, a.courseId) - {actor}, PublishMessage(a'))), Ok(a'))
  }

  function DeleteAnnouncement(s: Tables, actor: string, id: nat, admin: bool): (r: (Tables, Option<Error>))
    ensures r.0 == s.(announcements := r.0.announcements)
  {
    if id !in s.announcements then (s, Some(NotFound))
    else
      var error := WriteError(s.courses, actor, s.announcements[id].courseId, admin);
      if error.Some? then (s, error)
      else (s.(announcements := s.announcements - {id}), None)
  }

  // --- discussions ---------------------------------------------------------------------------

  /** A new thread with its first post; the teacher hears of it unless opening it. */
  ghost function CreateThread(s: Tables, actor: string, courseId: string, title: string, body: string, admin: bool)
    : (r: (Tables, Result<Thread>))
    ensures r.0 == s.(threads := r.0.threads, posts := r.0.posts, outbox := r.0.outbox, nextId := r.0.nextId)
  {
    var error := ReadError(s, actor, courseId, admin);
    if error.Some? then (s, Err(error.value))
    else if TrimSpace(title) == "" || TrimSpace(body) == "" then (s, Err(Validation))
    else
      var t := Thread(s.nextId, courseId, actor, TrimSpace(title), Open);
      var p := Post(s.nextId + 1, t.id, actor, None, TrimSpace(body));
      (s.(threads := s.threads[t.id := t], posts := s.posts[p.id := p], nextId := s.nextId + 2,
          outbox := s.outbox + Notices({s.courses[courseId]} - {actor},
                                       Message(NewThread, t.title, p.body, t.id, courseId))), Ok(t))
  }

  function LockThread(s: Tables, actor: string, threadId: nat, admin: bool): (r: (Tables, Result<Thread>))
    ensures r.0 == s.(threads := r.0.threads)
  {
    if threadId !in s.threads then (s, Err(NotFound))
    else
      var t := s.threads[threadId];
      var error := WriteError(s.courses, actor, t.courseId, admin);
      if error.Some? then (s, Err(error.value))
      else (s.(threads := s.threads[threadId := t.(status := Locked)]), Ok(t.(status := Locked)))
  }

  /** The tables with the reply, and its notices sent. */
  ghost function Replied(s: Tables, t: Thread, p: Post): (r: Tables)
    ensures r == s.(posts := r.posts, outbox := r.outbox, nextId := r.nextId)
  {
    var posts := s.posts[p.id := p];
    var to := ReplyRecipients(Authors(posts, p.threadId), p.authorId, TeacherOf(s.courses, t.courseId), t.authorId);
    s.(posts := posts, nextId := s.nextId + 1,
       outbox := s.outbox + Notices(to, Message(Reply, t.title, p.body, p.threadId, t.courseId)))
  }

  /** A reply. The parent is only required to exist (a foreign key), in whatever thread. */
  ghost function CreatePost(s: Tables, actor: string, threadId: nat, body: string, parentId: Option<nat>, admin: bool)
    : (r: (Tables, Result<Post>))
    ensures r.0 == s.(posts := r.0.posts, outbox := r.0.outbox, nextId := r.0.nextId)
  {
    if threadId !in s.threads then (s, Err(NotFound))
    else
      var t := s.threads[threadId];
      var error := ReadError(s, actor, t.courseId, admin);
      if error.Some? then (s, Err(error.value))
      else if t.status == Locked then (s, Err(Forbidden))
      else if TrimSpace(body) == "" then (s, Err(Validation))
      else if parentId.Some? && parentId.value !in s.posts then (s, Err(Internal))
      else
        var p := Post(s.nextId, threadId, actor, parentId, TrimSpace(body));
        (Replied(s, t, p), Ok(p))
  }

  /** Why the actor may not change the post, if so: any reason is reported as forbidden. */
  function PostError(s: Tables, actor: string, postId: nat, admin: bool): Option<Error> {
    if postId !in s.posts || s.posts[postId].threadId !in s.threads then Some(NotFound)
    else if s.posts[postId].authorId == actor then None
    else if WriteError(s.courses, actor, s.threads[s.posts[postId].threadId].courseId, admin).Some? then Some(Forbidden)
    else None
  }

  function UpdatePost(s: Tables, actor: string, postId: nat, body: string, admin: bool): (r: (Tables, Result<Post>))
    ensures r.0 == s.(posts := r.0.posts)
  {
    var error := PostError(s, actor, postId, admin);
    if error.Some? then (s, Err(error.value))
    else if TrimSpace(body) == "" then (s, Err(Validation))
    else
      var p := s.posts[postId].(body := TrimSpace(body));
      (s.(posts := s.posts[postId := p]), Ok(p))
  }

  /** The post is the root or a reply below it. */
  predicate Under(posts: map<nat, Post>, p: nat, root: nat)
    decreases p
  {
    p == root
      || (p in posts && posts[p].parentId.Some? && posts[p].parentId.value < p
          && Under(posts, posts[p].parentId.value, root))
  }

  /** Deleting a post deletes every reply below it (the foreign key cascades). */
  function DeletePost(s: Tables, actor: string, postId: nat, admin: bool): (r: (Tables, Option<Error>))
    ensures r.0 == s.(posts := r.0.posts)
  {
    var error := PostError(s, actor, postId, admin);
    if error.Some? then (s, error)
    else (s.(posts := map p | p in s.posts && !Under(s.posts, p, postId) :: s.posts[p]), None)
  }

  // --- runs ------------------------------------------------------------------------------------

  datatype Op =
    | CreateAnnouncementOp(actor: string, courseId: string, title: string, body: string, pinned: bool, admin: bool)
    | UpdateAnnouncementOp(actor: string, id: nat, title: string, body: string, pinned: bool, admin: bool)
    | PublishOp(actor: string, id: nat, admin: bool)
    | DeleteAnnouncementOp(actor: string, id: nat, admin: bool)
    | CreateThreadOp(actor: string, courseId: string, title: string, body: string, admin: bool)
    | LockOp(actor: string, threadId: nat, admin: bool)
    | CreatePostOp(actor: string, threadId: nat, body: string, parentId: Option<nat>, admin: bool)
    | UpdatePostOp(actor: string, postId: nat, body: string, admin: bool)
    | DeletePostOp(actor: string, postId: nat, admin: bool)
    | ElsewhereOp(courses: map<string, string>, enrollments: seq<Enrollment>)

  /** One call: the tables after it and the error it reported, if any. The last is whatever
      other services do to courses and enrollments, within the unique index on a seat. */
  ghost function Step(s: Tables, op: Op): (Tables, Option<Error>) {
    match op
    case CreateAnnouncementOp(actor, courseId, title, body, pinned, admin) =>
      var (s', r) := CreateAnnouncement(s, actor, courseId, title, body, pinned, admin); (s', ToError(r))
    case UpdateAnnouncementOp(actor, id, title, body, pinned, admin) =>
      var (s', r) := UpdateAnnouncement(s, actor, id, title, body, pinned, admin); (s', ToError(r))
    case PublishOp(actor, id, admin) => var (s', r) := PublishAnnouncement(s, actor, id, admin); (s', ToError(r))
    case DeleteAnnouncementOp(actor, id, admin) => DeleteAnnouncement(s, actor, id, admin)
    case CreateThreadOp(actor, courseId, title, body, admin) =>
      var (s', r) := CreateThread(s, actor, courseId, title, body, admin); (s', ToError(r))
    case LockOp(actor, threadId, admin) => var (s', r) := LockThread(s, actor, threadId, admin); (s', ToError(r))
    case CreatePostOp(actor, threadId, body, parentId, admin) =>
      var (s', r) := CreatePost(s, actor, threadId, body, parentId, admin); (s', ToError(r))
    case UpdatePostOp(actor, postId, body, admin) =>
      var (s', r) := UpdatePost(s, actor, postId, body, admin); (s', ToError(r))
    case DeletePostOp(actor, postId, admin) => DeletePost(s, actor, postId, admin)
    case ElsewhereOp(courses, enrollments) =>
      if OneSeatEach(enrollments) then (s.(courses := courses, enrollments := enrollments), None)
        else (s, Some(Conflict))
  }

  // Each call's step, one lemma a call.

  lemma CreateAnnouncementStep(s: Tables, op: Op)
    requires op.CreateAnnouncementOp?
    ensures var (s', r) := CreateAnnouncement(s, op.actor, op.courseId, op.title, op.body, op.pinned, op.admin);
      Step(s, op) == (s', ToError(r))
  {
    hide CreateAnnouncement, UpdateAnnouncement, PublishAnnouncement, DeleteAnnouncement;
    hide CreateThread, LockThread, CreatePost, UpdatePost, DeletePost;
  }

  lemma UpdateAnnouncementStep(s: Tables, op: Op)
    requires op.UpdateAnnouncementOp?
    ensures var (s', r) := UpdateAnnouncement(s, op.actor, op.id, op.title, op.body, op.pinned, op.admin);
      Step(s, op) == (s', ToError(r))
  {
    hide CreateAnnouncement, UpdateAnnouncement, PublishAnnouncement, DeleteAnnouncement;
    hide CreateThread, LockThread, CreatePost, UpdatePost, DeletePost;
  }

  lemma PublishStep(s: Tables, op: Op)
    requires op.PublishOp?
    ensures var (s', r) := PublishAnnouncement(s, op.actor, op.id, op.admin);
      Step(s, op) == (s', ToError(r))
  {
    hide CreateAnnouncement, UpdateAnnouncement, PublishAnnouncement, DeleteAnnouncement;
    hide CreateThread, LockThread, CreatePost, UpdatePost, DeletePost;
  }

  lemma DeleteAnnouncementStep(s: Tables, op: Op)
    requires op.DeleteAnnouncementOp?
    ensures Step(s, op) == DeleteAnnouncement(s, op.actor, op.id, op.admin)
  {
    hide CreateAnnouncement, UpdateAnnouncement, PublishAnnouncement, DeleteAnnouncement;
    hide CreateThread, LockThread, CreatePost, UpdatePost, DeletePost;
  }

  lemma CreateThreadStep(s: Tables, op: Op)
    requires op.CreateThreadOp?
    ensures var (s', r) := CreateThread(s, op.actor, op.courseId, op.title, op.body, op.admin);
      Step(s, op) == (s', ToError(r))
  {
    hide CreateAnnouncement, UpdateAnnouncement, PublishAnnouncement, DeleteAnnouncement;
    hide CreateThread, LockThread, CreatePost, UpdatePost, DeletePost;
  }

  lemma LockStep(s: Tables, op: Op)
    requires op.LockOp?
    ensures var (s', r) := LockThread(s, op.actor, op.threadId, op.admin);
      Step(s, op) == (s', ToError(r))
  {
    hide CreateAnnouncement, UpdateAnnouncement, PublishAnnouncement, DeleteAnnouncement;
    hide CreateThread, LockThread, CreatePost, UpdatePost, DeletePost;
  }

  lemma CreatePostStep(s: Tables, op: Op)
    requires op.CreatePostOp?
    ensures var (s', r) := CreatePost(s, op.actor, op.threadId, op.body, op.parentId, op.admin);
      Step(s, op) == (s', ToError(r))
  {
    hide CreateAnnouncement, UpdateAnnouncement, PublishAnnouncement, DeleteAnnouncement;
    hide CreateThread, LockThread, CreatePost, UpdatePost, DeletePost;
  }

  lemma UpdatePostStep(s: Tables, op: Op)
    requires op.UpdatePostOp?
    ensures var (s', r) := UpdatePost(s, op.actor, op.postId, op.body, op.admin);
      Step(s, op) == (s', ToError(r))
  {
    hide CreateAnnouncement, UpdateAnnouncement, PublishAnnouncement, DeleteAnnouncement;
    hide CreateThread, LockThread, CreatePost, UpdatePost, DeletePost;
  }

  lemma DeletePostStep(s: Tables, op: Op)
    requires op.DeletePostOp?
    ensures Step(s, op) == DeletePost(s, op.actor, op.postId, op.admin)
  {
    hide CreateAnnouncement, UpdateAnnouncement, PublishAnnouncement, DeleteAnnouncement;
    hide CreateThread, LockThread, CreatePost, UpdatePost, DeletePost;
  }

  lemma ElsewhereStep(s: Tables, op: Op)
    requires op.ElsewhereOp?
    ensures var s' := Step(s, op).0;
      s' == s.(courses := s'.courses, enrollments := s'.enrollments)
        && (OneSeatEach(s.enrollments) ==> OneSeatEach(s'.enrollments))
  {
    hide CreateAnnouncement, UpdateAnnouncement, PublishAnnouncement, DeleteAnnouncement;
    hide CreateThread, LockThread, CreatePost, UpdatePost, DeletePost;
    hide OneSeatEach;
  }

  ghost function Run(s: Tables, ops: seq<Op>): Tables {
    if ops == [] then s else Step(Run(s, ops[..|ops| - 1]), ops[|ops| - 1]).0
  }

  const EMPTY := Tables(map[], [], map[], map[], map[], multiset{}, 0)

  // --- the invariant -------------------------------------------------------------------------------

  ghost predicate DiscussionInv(threads: map<nat, Thread>, posts: map<nat, Post>, nextId: nat) {
    && (forall t :: t in threads ==> threads[t].id == t < nextId)
    && (forall p :: p in posts ==> posts[p].id == p < nextId && posts[p].threadId in threads)
    && (forall p :: p in posts && posts[p].parentId.Some? ==>
        posts[p].parentId.value in posts && posts[p].parentId.value < p)
  }

  predicate SamePublish(a: Message, b: Message) {
    a.event == AnnouncementPublished && b.event == AnnouncementPublished && a.about == b.about
  }

  /** Publish notices are about published announcements (or deleted ones), and each user
      has at most one per announcement. */
  ghost predicate PublishInv(announcements: map<nat, Announcement>, outbox: multiset<Notice>, nextId: nat) {
    && (forall a :: a in announcements ==> announcements[a].id == a < nextId)
    && (forall n :: n in outbox && n.message.event == AnnouncementPublished ==>
          n.message.about < nextId
            && (n.message.about in announcements ==> announcements[n.message.about].status == Published))
    && (forall n :: n in outbox && n.message.event == AnnouncementPublished ==> outbox[n] == 1)
    && (forall n, m :: n in outbox && m in outbox && SamePublish(n.message, m.message) ==> n.message == m.message)
  }

  ghost predicate Inv(s: Tables) {
    && OneSeatEach(s.enrollments)
    && DiscussionInv(s.threads, s.posts, s.nextId)
    && PublishInv(s.announcements, s.outbox, s.nextId)
  }
}
