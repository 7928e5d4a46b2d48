/** The communication service (internal/service/communication.go): each method follows the
    source's steps and loops and is proved to do what CommunicationStore says. */
module CommunicationService {
  import opened Common
  import opened Enrollments
  import opened CommunicationStore
  import opened CommunicationRuns

  /** What enqueuing the message for each of the users leaves. */
  ghost function Sent(s: Tables, users: set<string>, m: Message): Tables {
    s.(outbox := s.outbox + Notices(users, m))
  }

  lemma NothingSent(s: Tables, m: Message)
    ensures Sent(s, {}, m) == s
  {
    assert Notices({}, m) == multiset{} by {
      forall n ensures Notices({}, m)[n] == 0 { NoticesCount({}, m, n); }
    }
  }

  /** One more user notified. */
  lemma OneMoreSent(s: Tables, users: set<string>, u: string, m: Message)
    requires u !in users
    ensures Sent(s, users + {u}, m) == Sent(s, users, m).(outbox := Sent(s, users, m).outbox + multiset{Notice(u, m)})
  {
    var left, right := s.outbox + Notices(users + {u}, m), s.outbox + Notices(users, m) + multiset{Notice(u, m)};
    forall n ensures left[n] == right[n] {
      NoticesCount(users + {u}, m, n);
      NoticesCount(users, m, n);
    }
    assert left == right;
  }

  lemma NothingRepeats()
    ensures NoDuplicates<string>([])
  {
  }

  lemma NobodyYet(users: seq<string>, skip: set<string>)
    ensures Elements(users[..0]) - skip == {}
  {
  }

  lemma ElementsGrow(s: seq<string>, i: nat)
    requires i < |s|
    ensures Elements(s[..i + 1]) == Elements(s[..i]) + {s[i]}
    ensures NoDuplicates(s) ==> s[i] !in Elements(s[..i])
  {
    assert s[..i + 1] == s[..i] + [s[i]];
  }

  /** One step of the loop over a page: the next user is told, or excluded. */
  lemma OneMoreTold(s: Tables, users: seq<string>, i: nat, exclude: string, m: Message)
    requires i < |users| && NoDuplicates(users)
    ensures var sent := Sent(s, Elements(users[..i]) - {exclude}, m);
      Sent(s, Elements(users[..i + 1]) - {exclude}, m)
        == if users[i] == exclude then sent else sent.(outbox := sent.outbox + multiset{Notice(users[i], m)})
  {
    hide Sent, Elements, NoDuplicates;
    ElementsGrow(users, i);
    var done := Elements(users[..i]);
    if users[i] == exclude {
      assert done + {users[i]} - {exclude} == done - {exclude};
    } else {
      assert done + {users[i]} - {exclude} == done - {exclude} + {users[i]};
      OneMoreSent(s, done - {exclude}, users[i], m);
    }
  }

  /** One more id taken from the rest. */
  lemma OneMoreId(ids: seq<string>, rest: set<string>, id: string)
    requires NoDuplicates(ids) && Elements(ids) !! rest && id in rest
    ensures NoDuplicates(ids + [id]) && Elements(ids + [id]) !! rest - {id}
    ensures Elements(ids + [id]) + (rest - {id}) == Elements(ids) + rest
  {
    assert forall i :: 0 <= i < |ids| ==> ids[i] in Elements(ids);
    assert Elements(ids + [id]) == Elements(ids) + {id};
  }

  /** One step of the loop over the participants: the next one is told, unless seen. */
  lemma OneMoreSeen(s: Tables, ids: seq<string>, i: nat, skip: set<string>, m: Message)
    requires i < |ids|
    ensures var told := Elements(ids[..i]) - skip;
      if ids[i] in skip + told then Elements(ids[..i + 1]) - skip == told
      else
        && Elements(ids[..i + 1]) - skip == told + {ids[i]}
        && Sent(s, told + {ids[i]}, m)
           == Sent(s, told, m).(outbox := Sent(s, told, m).outbox + multiset{Notice(ids[i], m)})
  {
    hide Sent, Elements;
    ElementsGrow(ids, i);
    var told := Elements(ids[..i]) - skip;
    if ids[i] !in skip + told { OneMoreSent(s, told, ids[i], m); }
  }

  /** Skipping the teacher in the loop and notifying them after it. */
  lemma RecipientsAre(participants: set<string>, actor: string, teacher: Option<string>, threadAuthor: string,
                      skip: set<string>)
    requires skip == {actor} + (if teacher.Some? then {teacher.value} else {}) + {threadAuthor}
    ensures ReplyRecipients(participants, actor, teacher, threadAuthor)
         == if teacher.Some? && teacher.value != actor then participants - skip + {teacher.value}
           else participants - skip
  {
  }

  class CommunicationService {
    var db: Tables

    constructor ()
      ensures db == EMPTY && Inv(db)
    {
      db := EMPTY;
    }

    // --- access ------------------------------------------------------------------------

    method RequireCourseWrite(actor: string, courseId: string, admin: bool) returns (error: Option<Error>)
      ensures error == WriteError(db.courses, actor, courseId, admin)
    {
      if courseId !in db.courses { return Some(NotFound); }
      if admin || db.courses[courseId] == actor { return None; }
      return Some(Forbidden);
    }

    method RequireCourseRead(actor: string, courseId: string, admin: bool) returns (error: Option<Error>)
      ensures error == ReadError(db, actor, courseId, admin)
    {
      if courseId !in db.courses { return Some(NotFound); }
      if admin || db.courses[courseId] == actor { return None; }
      if Enrolled(db.enrollments, actor, courseId) { return None; }
      return Some(Forbidden);
    }

    // --- notices -------------------------------------------------------------------------

    method EnqueueInApp(userId: string, m: Message)
      modifies this
      ensures db == old(db).(outbox := old(db).outbox + multiset{Notice(userId, m)})
    {
      db := db.(outbox := db.outbox + multiset{Notice(userId, m)});
    }

    /** One notice to each learner on the fetched page but one. */
    method NotifyCourseEnrollees(courseId: string, exclude: string, m: Message)
      requires OneSeatEach(db.enrollments)
      modifies this
      ensures db == Sent(old(db), PageUsers(old(db).enrollments, courseId) - {exclude}, m)
    {
      hide Sent, Elements, NoDuplicates, OneSeatEach;
      var items := ListByCourse(db.enrollments, courseId, PAGE);
      ghost var users := UsersOf(items);
      PageIs(db.enrollments, courseId);
      NothingSent(db, m);
      NobodyYet(users, {exclude});
      for i := 0 to |items|
        invariant db == Sent(old(db), Elements(users[..i]) - {exclude}, m)
      {
        var user := items[i].userId;
        OneMoreTold(old(db), users, i, exclude, m);
        if user == exclude { continue; }
        EnqueueInApp(user, m);
      }
      assert users[..|items|] == users;
    }

    method NotifyCourseTeacher(courseId: string, exclude: string, m: Message)
      modifies this
      ensures db
        == Sent(old(db), if courseId in old(db).courses then {old(db).courses[courseId]} - {exclude} else {}, m)
    {
      NothingSent(db, m);
      if courseId !in db.courses || db.courses[courseId] == exclude {
        assert {exclude} - {exclude} == {};
        return;
      }
      OneMoreSent(db, {}, db.courses[courseId], m);
      assert {db.courses[courseId]} - {exclude} == {} + {db.courses[courseId]};
      EnqueueInApp(db.courses[courseId], m);
    }

    /** The authors of a thread's posts, each once, in no particular order. */
    method ListParticipantIDs(threadId: nat) returns (ids: seq<string>)
      ensures NoDuplicates(ids) && Elements(ids) == Authors(db.posts, threadId)
    {
      hide Authors, NoDuplicates;
      var rest := Authors(db.posts, threadId);
      NothingRepeats();
      ids := [];
      while rest != {}
        invariant Elements(ids) + rest == Authors(db.posts, threadId)
        invariant NoDuplicates(ids) && Elements(ids) !! rest
        decreases |rest|
      {
        var id :| id in rest;
        OneMoreId(ids, rest, id);
        ids, rest := ids + [id], rest - {id};
      }
    }

    /** The loop over the participants: each one not yet seen, once. */
    method NotifyUnseen(ids: seq<string>, exclude: string, skip: set<string>, m: Message)
      requires exclude in skip
      modifies this
      ensures db == Sent(old(db), Elements(ids) - skip, m)
    {
      hide Sent, Elements;
      var seen := skip;
      NothingSent(db, m);
      NobodyYet(ids, skip);
      ghost var told: set<string> := {};
      for i := 0 to |ids|
        invariant told == Elements(ids[..i]) - skip && seen == skip + told
        invariant db == Sent(old(db), told, m)
      {
        OneMoreSeen(old(db), ids, i, skip, m);
        if ids[i] in seen || ids[i] == exclude { continue; }
        seen := seen + {ids[i]};
        EnqueueInApp(ids[i], m);
        told := told + {ids[i]};
      }
      assert ids[..|ids|] == ids;
    }

    /** For any list of participants, with or without repeats. */
    method NotifyThreadParticipants(ids: seq<string>, exclude: string, courseId: string, threadAuthor: string,
                                    m: Message)
      modifies this
      ensures db
        == Sent(old(db), ReplyRecipients(Elements(ids), exclude, TeacherOf(old(db).courses, courseId), threadAuthor), m)
    {
      var seen := {exclude};
      var course := TeacherOf(db.courses, courseId);
      if course.Some? { seen := seen + {course.value}; }
      seen := seen + {threadAuthor};
      NotifyUnseen(ids, exclude, seen, m);
      RecipientsAre(Elements(ids), exclude, course, threadAuthor, seen);
      if course.Some? && course.value != exclude {
        OneMoreSent(old(db), Elements(ids) - seen, course.value, m);
        EnqueueInApp(course.value, m);
      }
    }

    // --- announcements ---------------------------------------------------------------------

    method CreateAnnouncement(actor: string, courseId: string, title: string, body: string, pinned: bool, admin: bool)
      returns (r: Result<Announcement>)
      requires Inv(db)
      modifies this
      ensures Inv(db)
        && (db, r) == CommunicationStore.CreateAnnouncement(old(db), actor, courseId, title, body, pinned, admin)
      ensures r.Err? ==> db == old(db)
    {
      DraftKeepsInv(db, actor, courseId, title, body, pinned, admin);
      var error := RequireCourseWrite(actor, courseId, admin);
      if error.Some? { return Err(error.value); }
      if TrimSpace(title) == "" { return Err(Validation); }
      var a := Announcement(db.nextId, courseId, actor, TrimSpace(title), TrimSpace(body), Draft, pinned);
      db := db.(announcements := db.announcements[a.id := a], nextId := db.nextId + 1);
      return Ok(a);
    }

    method UpdateAnnouncement(actor: string, id: nat, title: string, body: string, pinned: bool, admin: bool)
      returns (r: Result<Announcement>)
      requires Inv(db)
      modifies this
      ensures Inv(db)
        && (db, r) == CommunicationStore.UpdateAnnouncement(old(db), actor, id, title, body, pinned, admin)
      ensures r.Err? ==> db == old(db)
    {
      EditDraftKeepsInv(db, actor, id, title, body, pinned, admin);
      if id !in db.announcements { return Err(NotFound); }
      var a := db.announcements[id];
      var error := RequireCourseWrite(actor, a.courseId, admin);
      if error.Some? { return Err(error.value); }
      if TrimSpace(title) == "" { return Err(Validation); }
      a := a.(title := TrimSpace(title));
      a := a.(body := TrimSpace(body));
      a := a.(pinned := pinned);
      if db.announcements[a.id].status != Draft { return Err(Validation); }
      db := db.(announcements := db.announcements[a.id := a]);
      return Ok(a);
    }

    method PublishAnnouncement(actor: string, id: nat, admin: bool) returns (r: Result<Announcement>)
      requires Inv(db)
      modifies this
      ensures Inv(db) && (db, r) == CommunicationStore.PublishAnnouncement(old(db), actor, id, admin)
      ensures r.Err? ==> db == old(db)
    {
      PublishKeepsInv(db, actor, id, admin);
      if id !in db.announcements { return Err(NotFound); }
      var a := db.announcements[id];
      var error := RequireCourseWrite(actor, a.courseId, admin);
      if error.Some? { return Err(error.value); }
      if a.status != Draft { return Err(Validation); }
      db := db.(announcements := db.announcements[id := a.(status := Published)]);
      a := db.announcements[id];
      NotifyCourseEnrollees(a.courseId, actor, PublishMessage(a));
      return Ok(a);
    }

    method DeleteAnnouncement(actor: string, id: nat, admin: bool) returns (error: Option<Error>)
      requires Inv(db)
      modifies this
      ensures Inv(db) && (db, error) == CommunicationStore.DeleteAnnouncement(old(db), actor, id, admin)
      ensures error.Some? ==> db == old(db)
    {
      WithdrawKeepsInv(db, actor, id, admin);
      if id !in db.announcements { return Some(NotFound); }
      error := RequireCourseWrite(actor, db.announcements[id].courseId, admin);
      if error.Some? { return; }
      db := db.(announcements := db.announcements - {id});
    }

    // --- discussions ------------------------------------------------------------------------

    method CreateThread(actor: string, courseId: string, title: string, body: string, admin: bool)
      returns (r: Result<Thread>)
      requires Inv(db)
      modifies this
      ensures Inv(db) && (db, r) == CommunicationStore.CreateThread(old(db), actor, courseId, title, body, admin)
      ensures r.Err? ==> db == old(db)
    {
      hide Inv, Notices;
      CreateThreadKeepsInv(db, actor, courseId, title, body, admin);
      var error := RequireCourseRead(actor, courseId, admin);
      if error.Some? { return Err(error.value); }
      if TrimSpace(title) == "" { return Err(Validation); }
      if TrimSpace(body) == "" { return Err(Validation); }
      var t := Thread(db.nextId, courseId, actor, TrimSpace(title), Open);
      db := db.(threads := db.threads[t.id := t], nextId := db.nextId + 1);
      var p := Post(db.nextId, t.id, actor, None, TrimSpace(body));
      db := db.(posts := db.posts[p.id := p], nextId := db.nextId + 1);
      NotifyCourseTeacher(courseId, actor, Message(NewThread, t.title, TrimSpace(body), t.id, courseId));
      return Ok(t);
    }

    method LockThread(actor: string, threadId: nat, admin: bool) returns (r: Result<Thread>)
      requires Inv(db)
      modifies this
      ensures Inv(db) && (db, r) == CommunicationStore.LockThread(old(db), actor, threadId, admin)
      ensures r.Err? ==> db == old(db)
    {
      if threadId !in db.threads { return Err(NotFound); }
      var t := db.threads[threadId];
      var error := RequireCourseWrite(actor, t.courseId, admin);
      if error.Some? { return Err(error.value); }
      db := db.(threads := db.threads[threadId := t.(status := Locked)]);
      return Ok(db.threads[threadId]);
    }

    /** Stores the post, unless the foreign key on its parent refuses, and tells the
        participants. */
    method Reply(t: Thread, p: Post) returns (r: Result<Post>)
      requires p.id == db.nextId
      modifies this
      ensures r == if p.parentId.Some? && p.parentId.value !in old(db).posts then Err(Internal) else Ok(p)
      ensures db == if r.Ok? then Replied(old(db), t, p) else old(db)
    {
      if p.parentId.Some? && p.parentId.value !in db.posts { return Err(Internal); }
      db := db.(posts := db.posts[p.id := p], nextId := db.nextId + 1);
      var ids := ListParticipantIDs(p.threadId);
      NotifyThreadParticipants(ids, p.authorId, t.courseId, t.authorId,
                               Message(Event.Reply, t.title, p.body, p.threadId, t.courseId));
      return Ok(p);
    }

    method CreatePost(actor: string, threadId: nat, body: string, parentId: Option<nat>, admin: bool)
      returns (r: Result<Post>)
      requires Inv(db)
      modifies this
      ensures Inv(db) && (db, r) == CommunicationStore.CreatePost(old(db), actor, threadId, body, parentId, admin)
      ensures r.Err? ==> db == old(db)
    {
      if threadId !in db.threads { return Err(NotFound); }
      var t := db.threads[threadId];
      var error := RequireCourseRead(actor, t.courseId, admin);
      if error.Some? { return Err(error.value); }
      if t.status == Locked { return Err(Forbidden); }
      if TrimSpace(body) == "" { return Err(Validation); }
      CreatePostKeepsInv(db, actor, threadId, body, parentId, admin);
      r := Reply(t, Post(db.nextId, threadId, actor, parentId, TrimSpace(body)));
    }

    method RequirePostChange(actor: string, postId: nat, admin: bool) returns (error: Option<Error>)
      ensures error == PostError(db, actor, postId, admin)
    {
      if postId !in db.posts { return Some(NotFound); }
      var p := db.posts[postId];
      if p.threadId !in db.threads { return Some(NotFound); }
      if p.authorId != actor {
        var refused := RequireCourseWrite(actor, db.threads[p.threadId].courseId, admin);
        if refused.Some? { return Some(Forbidden); }
      }
      return None;
    }

    method UpdatePost(actor: string, postId: nat, body: string, admin: bool) returns (r: Result<Post>)
      requires Inv(db)
      modifies this
      ensures Inv(db) && (db, r) == CommunicationStore.UpdatePost(old(db), actor, postId, body, admin)
      ensures r.Err? ==> db == old(db)
    {
      var error := RequirePostChange(actor, postId, admin);
      if error.Some? { return Err(error.value); }
      if TrimSpace(body) == "" { return Err(Validation); }
      var p := db.posts[postId].(body := TrimSpace(body));
      db := db.(posts := db.posts[postId := p]);
      return Ok(p);
    }

    method DeletePost(actor: string, postId: nat, admin: bool) returns (error: Option<Error>)
      requires Inv(db)
      modifies this
      ensures Inv(db) && (db, error) == CommunicationStore.DeletePost(old(db), actor, postId, admin)
      ensures error.Some? ==> db == old(db)
    {
      DeleteKeepsInv(db, actor, postId, admin);
      error := RequirePostChange(actor, postId, admin);
      if error.Some? { return; }
      db := db.(posts := map p | p in db.posts && !Under(db.posts, p, postId) :: db.posts[p]);
    }
  }
}
