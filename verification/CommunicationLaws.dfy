/** How each request about announcements and discussions is answered, and what it leaves to
    read. Who is notified is in CommunicationRuns. */
module CommunicationLaws {
  import opened Common
  import opened Enrollments
  import opened CommunicationStore
  import opened CommunicationRuns

  /** The actor teaches the course or is an administrator. */
  ghost predicate Manages(s: Tables, actor: string, courseId: string, admin: bool) {
    courseId in s.courses && (admin || s.courses[courseId] == actor)
  }

  /** The actor manages the course or has an active enrollment in it. */
  ghost predicate TakesPart(s: Tables, actor: string, courseId: string, admin: bool) {
    && courseId in s.courses
    && (Manages(s, actor, courseId, admin)
        || exists e :: e in s.enrollments && e.courseId == courseId && e.userId == actor && e.status == Active)
  }

  lemma ReadersTakePart(s: Tables, actor: string, courseId: string, admin: bool)
    ensures ReadError(s, actor, courseId, admin)
      == if courseId !in s.courses then Some(NotFound)
         else if TakesPart(s, actor, courseId, admin) then None else Some(Forbidden)
  {
    if e :| e in s.enrollments && e.courseId == courseId && e.userId == actor && e.status == Active {
      var i :| 0 <= i < |s.enrollments| && s.enrollments[i] == e;
    }
  }

  // --- announcements -----------------------------------------------------------------------

  /** A manager's announcement is stored as a draft. */
  lemma CreateAnnouncementAnswered(s: Tables, actor: string, courseId: string, title: string, body: string,
                                   pinned: bool, admin: bool)
    ensures var (s', r) := CreateAnnouncement(s, actor, courseId, title, body, pinned, admin);
      if courseId !in s.courses then s' == s && r == Err(NotFound)
      else if !Manages(s, actor, courseId, admin) then s' == s && r == Err(Forbidden)
      else if TrimSpace(title) == "" then s' == s && r == Err(Validation)
      else
        && r == Ok(Announcement(s.nextId, courseId, actor, TrimSpace(title), TrimSpace(body), Draft, pinned))
        && s'.announcements == s.announcements[s.nextId := r.value]
  {
  }

  /** The announcement and its course exist. */
  ghost predicate Announced(s: Tables, id: nat) {
    id in s.announcements && s.announcements[id].courseId in s.courses
  }

  /** A manager may edit a draft. */
  lemma UpdateAnnouncementAnswered(s: Tables, actor: string, id: nat, title: string, body: string, pinned: bool,
                                   admin: bool)
    ensures var (s', r) := UpdateAnnouncement(s, actor, id, title, body, pinned, admin);
      if !Announced(s, id) then s' == s && r == Err(NotFound)
      else
        var a := s.announcements[id];
        if !Manages(s, actor, a.courseId, admin) then s' == s && r == Err(Forbidden)
        else if TrimSpace(title) == "" || a.status == Published then s' == s && r == Err(Validation)
        else
          && r == Ok(Announcement(a.id, a.courseId, a.authorId, TrimSpace(title), TrimSpace(body), Draft, pinned))
          && s'.announcements == s.announcements[id := r.value]
  {
  }

  /** A manager may publish a draft, which changes nothing else about it. */
  lemma PublishAnswered(s: Tables, actor: string, id: nat, admin: bool)
    ensures var (s', r) := PublishAnnouncement(s, actor, id, admin);
      if !Announced(s, id) then s' == s && r == Err(NotFound)
      else
        var a := s.announcements[id];
        if !Manages(s, actor, a.courseId, admin) then s' == s && r == Err(Forbidden)
        else if a.status == Published then s' == s && r == Err(Validation)
        else
          && r == Ok(Announcement(a.id, a.courseId, a.authorId, a.title, a.body, Published, a.pinned))
          && s'.announcements == s.announcements[id := r.value]
  {
  }

  /** A manager may delete an announcement, and only that one goes. */
  lemma DeleteAnnouncementAnswered(s: Tables, actor: string, id: nat, admin: bool)
    ensures var (s', error) := DeleteAnnouncement(s, actor, id, admin);
      if !Announced(s, id) then s' == s && error == Some(NotFound)
      else if !Manages(s, actor, s.announcements[id].courseId, admin) then s' == s && error == Some(Forbidden)
      else
        && error == None && id !in s'.announcements
        && forall other :: other != id ==>
             && (other in s'.announcements <==> other in s.announcements)
             && (other in s.announcements ==> s'.announcements[other] == s.announcements[other])
  {
  }

  // --- threads ---------------------------------------------------------------------------------

  /** Whoever takes part in the course may open a thread, with a title and a first post. */
  lemma CreateThreadAnswered(s: Tables, actor: string, courseId: string, title: string, body: string, admin: bool)
    ensures var (s', r) := CreateThread(s, actor, courseId, title, body, admin);
      if courseId !in s.courses then s' == s && r == Err(NotFound)
      else if !TakesPart(s, actor, courseId, admin) then s' == s && r == Err(Forbidden)
      else if TrimSpace(title) == "" || TrimSpace(body) == "" then s' == s && r == Err(Validation)
      else
        && r == Ok(Thread(s.nextId, courseId, actor, TrimSpace(title), Open))
        && s'.threads == s.threads[s.nextId := r.value]
        && s'.posts == s.posts[s.nextId + 1 := Post(s.nextId + 1, s.nextId, actor, None, TrimSpace(body))]
  {
    ReadersTakePart(s, actor, courseId, admin);
  }

  /** The thread and its course exist. */
  ghost predicate Discussed(s: Tables, threadId: nat) {
    threadId in s.threads && s.threads[threadId].courseId in s.courses
  }

  /** A manager may lock a thread, which changes nothing else. */
  lemma LockAnswered(s: Tables, actor: string, threadId: nat, admin: bool)
    ensures var (s', r) := LockThread(s, actor, threadId, admin);
      if !Discussed(s, threadId) then s' == s && r == Err(NotFound)
      else
        var t := s.threads[threadId];
        if !Manages(s, actor, t.courseId, admin) then s' == s && r == Err(Forbidden)
        else
          && r == Ok(Thread(t.id, t.courseId, t.authorId, t.title, Locked))
          && s'.threads == s.threads[threadId := r.value]
  {
  }

  // --- posts -----------------------------------------------------------------------------------

  /** Whoever takes part in the course may post in an open thread of it. */
  lemma CreatePostAnswered(s: Tables, actor: string, threadId: nat, body: string, parentId: Option<nat>, admin: bool)
    ensures var (s', r) := CreatePost(s, actor, threadId, body, parentId, admin);
      if !Discussed(s, threadId) then s' == s && r == Err(NotFound)
      else if !TakesPart(s, actor, s.threads[threadId].courseId, admin) || s.threads[threadId].status == Locked then
        s' == s && r == Err(Forbidden)
      else if TrimSpace(body) == "" then s' == s && r == Err(Validation)
      else if parentId.Some? && parentId.value !in s.posts then s' == s && r == Err(Internal)
      else
        && r == Ok(Post(s.nextId, threadId, actor, parentId, TrimSpace(body)))
        && s'.posts == s.posts[s.nextId := r.value]
  {
    if threadId in s.threads { ReadersTakePart(s, actor, s.threads[threadId].courseId, admin); }
  }

  /** The actor wrote the post or manages its course. */
  ghost predicate Changes(s: Tables, actor: string, postId: nat, admin: bool)
    requires postId in s.posts && s.posts[postId].threadId in s.threads
  {
    s.posts[postId].authorId == actor || Manages(s, actor, s.threads[s.posts[postId].threadId].courseId, admin)
  }

  /** A post's author or a manager may replace its text. */
  lemma UpdatePostAnswered(s: Tables, actor: string, postId: nat, body: string, admin: bool)
    ensures var (s', r) := UpdatePost(s, actor, postId, body, admin);
      if postId !in s.posts || s.posts[postId].threadId !in s.threads then s' == s && r == Err(NotFound)
      else if !Changes(s, actor, postId, admin) then s' == s && r == Err(Forbidden)
      else if TrimSpace(body) == "" then s' == s && r == Err(Validation)
      else
        var p := s.posts[postId];
        r == Ok(Post(p.id, p.threadId, p.authorId, p.parentId, TrimSpace(body)))
        && s'.posts == s.posts[postId := r.value]
  {
  }

  /** A post's author or a manager may delete it; then exactly it is gone, and whatever
      answered a post that is gone. */
  lemma DeletePostAnswered(s: Tables, actor: string, postId: nat, admin: bool)
    requires DiscussionInv(s.threads, s.posts, s.nextId)
    ensures var (s', error) := DeletePost(s, actor, postId, admin);
      if postId !in s.posts then s' == s && error == Some(NotFound)
      else if !Changes(s, actor, postId, admin) then s' == s && error == Some(Forbidden)
      else
        && error == None
        && (forall p :: p in s'.posts ==> p in s.posts && s'.posts[p] == s.posts[p])
        && forall p :: p in s.posts ==>
             (p !in s'.posts <==>
              p == postId || (s.posts[p].parentId.Some? && s.posts[p].parentId.value !in s'.posts))
  {
  }
}
