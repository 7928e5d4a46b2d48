/** The curriculum tree a course shows to its author and to everybody else
    (internal/service/curriculum.go). */
module Curriculum {
  import opened Common
  import opened Enrollments

  datatype CourseStatus = Draft | Published | Archived

  datatype Course = Course(id: string, teacherId: string, status: CourseStatus)

  datatype Block = Block(id: string, blockType: string, title: string, body: string, mediaUrl: string,
                         quizRef: Option<string>, position: int)

  datatype Lesson = Lesson(
    id: string, title: string, slug: string, summary: string, published: bool, position: int,
    prerequisite: Option<string>, minutes: int, blocks: seq<Block>)

  datatype CourseModule = CourseModule(id: string, title: string, position: int, lessons: seq<Lesson>)

  datatype Tree = Tree(courseId: string, modules: seq<CourseModule>)

  /** The tables, and what each listing returns, in position order. */
  datatype Repository = Repository(
    courses: map<string, Course>,
    enrollments: map<(string, string), EnrollmentStatus>,
    modules: string -> seq<CourseModule>,
    lessons: string -> seq<Lesson>,
    blocks: string -> seq<Block>)

  /** A lesson row comes without its blocks. */
  ghost predicate RowsAlone(repo: Repository) {
    forall m: string, i: nat :: i < |repo.lessons(m)| ==> repo.lessons(m)[i].blocks == []
  }

  predicate HasActiveEnrollment(repo: Repository, courseId: string, userId: string) {
    userId != "" && (courseId, userId) in repo.enrollments && repo.enrollments[(courseId, userId)] == Active
  }

  predicate CanAuthor(repo: Repository, courseId: string, actor: string, admin: bool) {
    admin || (actor != "" && courseId in repo.courses && repo.courses[courseId].teacherId == actor)
  }

  // --- the author's tree -------------------------------------------------------------------

  function FullLessons(lessons: seq<Lesson>, blocks: string -> seq<Block>): (r: seq<Lesson>) {
    seq(|lessons|, i requires 0 <= i < |lessons| => lessons[i].(blocks := blocks(lessons[i].id)))
  }

  function FullModule(repo: Repository, m: CourseModule): CourseModule {
    m.(lessons := FullLessons(repo.lessons(m.id), repo.blocks))
  }

  /** Every module with every lesson with every block. */
  function FullTree(repo: Repository, courseId: string): Tree {
    var modules := repo.modules(courseId);
    Tree(courseId, seq(|modules|, i requires 0 <= i < |modules| => FullModule(repo, modules[i])))
  }

  // --- what others see of it -----------------------------------------------------------------

  /** The published lessons in order, with their blocks only if enrolled. */
  function Visible(lessons: seq<Lesson>, enrolled: bool): seq<Lesson> {
    if lessons == [] then []
    else
      var n := |lessons| - 1;
      Visible(lessons[..n], enrolled)
      + if !lessons[n].published then [] else if enrolled then [lessons[n]] else [lessons[n].(blocks := [])]
  }

  function View(tree: Tree, enrolled: bool): Tree {
    Tree(tree.courseId, seq(|tree.modules|, i requires 0 <= i < |tree.modules| =>
      tree.modules[i].(lessons := Visible(tree.modules[i].lessons, enrolled))))
  }

  /** What a reader gets of a course. */
  function TreeFor(repo: Repository, courseId: string, actor: string, admin: bool): Result<Tree> {
    if courseId !in repo.courses then Err(NotFound)
    else if CanAuthor(repo, courseId, actor, admin) then Ok(FullTree(repo, courseId))
    else if repo.courses[courseId].status != Published then Err(NotFound)
    else Ok(View(FullTree(repo, courseId), HasActiveEnrollment(repo, courseId, actor)))
  }

  method VisibleLessons(repo: Repository, moduleId: string, author: bool, includeBlocks: bool)
    returns (visible: seq<Lesson>)
    requires RowsAlone(repo) && (author ==> includeBlocks)
    ensures var full := FullLessons(repo.lessons(moduleId), repo.blocks);
      visible == if author then full else Visible(full, includeBlocks)
  {
    var lessons := repo.lessons(moduleId);
    ghost var full := FullLessons(lessons, repo.blocks);
    visible := [];
    for i := 0 to |lessons|
      invariant visible == if author then full[..i] else Visible(full[..i], includeBlocks)
    {
      assert full[..i + 1][..i] == full[..i];
      var lesson := lessons[i];
      if !author && !lesson.published { continue; }
      if includeBlocks { lesson := lesson.(blocks := repo.blocks(lesson.id)); }
      visible := visible + [lesson];
    }
    assert full[..|lessons|] == full;
  }

  /** Others see exactly the projection of the author's tree: the drafts gone, the order
      kept, the blocks there if and only if enrolled. */
  method GetTree(repo: Repository, courseId: string, actor: string, admin: bool) returns (r: Result<Tree>)
    requires RowsAlone(repo)
    ensures r == TreeFor(repo, courseId, actor, admin)
  {
    if courseId !in repo.courses { return Err(NotFound); }
    var course := repo.courses[courseId];
    var author := admin || (actor != "" && course.teacherId == actor);
    if course.status != Published && !author { return Err(NotFound); }
    var includeBlocks := author;
    if !includeBlocks { includeBlocks := HasActiveEnrollment(repo, courseId, actor); }
    var modules := repo.modules(courseId);
    ghost var full := FullTree(repo, courseId);
    ghost var view := if author then full else View(full, includeBlocks);
    var out: seq<CourseModule> := [];
    for i := 0 to |modules|
      invariant out == view.modules[..i]
    {
      var visible := VisibleLessons(repo, modules[i].id, author, includeBlocks);
      out := out + [modules[i].(lessons := visible)];
      assert view.modules[i] == modules[i].(lessons := visible);
    }
    assert out == view.modules;
    return Ok(Tree(courseId, out));
  }

  // --- what the projection is -----------------------------------------------------------------

  /** Each published lesson is visible, after exactly the published lessons before it: the
      projection drops drafts and moves nothing. */
  lemma {:induction false} VisibleAt(lessons: seq<Lesson>, i: nat, enrolled: bool)
    requires i < |lessons|
    ensures var k := |Visible(lessons[..i], enrolled)|;
      && Visible(lessons[..i], enrolled) <= Visible(lessons, enrolled)
      && (lessons[i].published ==>
            k < |Visible(lessons, enrolled)| && Visible(lessons, enrolled)[k] == if enrolled then lessons[i]
              else lessons[i].(blocks := []))
  {
    var n := |lessons| - 1;
    if i < n {
      assert lessons[..n][..i] == lessons[..i];
      VisibleAt(lessons[..n], i, enrolled);
    }
  }

  /** And nothing else is visible. */
  lemma {:induction false} VisibleOnly(lessons: seq<Lesson>, enrolled: bool, k: nat)
    requires k < |Visible(lessons, enrolled)|
    ensures exists i: nat :: i < |lessons| && lessons[i].published && k == |Visible(lessons[..i], enrolled)|
  {
    var n := |lessons| - 1;
    if k < |Visible(lessons[..n], enrolled)| {
      VisibleOnly(lessons[..n], enrolled, k);
      var i: nat :| i < n && lessons[..n][i].published && k == |Visible(lessons[..n][..i], enrolled)|;
      assert lessons[..n][..i] == lessons[..i];
    } else {
      assert lessons[n].published;
    }
  }

  // --- who gets what ----------------------------------------------------------------------------

  /** The actor teaches the course or is an administrator. */
  predicate IsAuthor(repo: Repository, courseId: string, actor: string, admin: bool)
    requires courseId in repo.courses
  {
    admin || (actor != "" && repo.courses[courseId].teacherId == actor)
  }

  predicate ActivelyEnrolled(repo: Repository, courseId: string, actor: string) {
    actor != "" && (courseId, actor) in repo.enrollments && repo.enrollments[(courseId, actor)] == Active
  }

  function PublishedIn(lessons: seq<Lesson>): nat {
    if lessons == [] then 0
    else PublishedIn(lessons[..|lessons| - 1]) + if lessons[|lessons| - 1].published then 1 else 0
  }

  /** The list shows the published rows in order and nothing else, each with the blocks
      stored for it if they may be read and with none otherwise. */
  ghost predicate ShowsPublished(shown: seq<Lesson>, rows: seq<Lesson>, blocks: string -> seq<Block>, enrolled: bool) {
    && |shown| == PublishedIn(rows)
    && forall j :: 0 <= j < |rows| && rows[j].published ==>
         && PublishedIn(rows[..j]) < |shown|
         && shown[PublishedIn(rows[..j])] == rows[j].(blocks := if enrolled then blocks(rows[j].id) else [])
  }

  /** The list shows every row, with the blocks stored for it. */
  ghost predicate ShowsAll(shown: seq<Lesson>, rows: seq<Lesson>, blocks: string -> seq<Block>) {
    && |shown| == |rows|
    && forall j :: 0 <= j < |rows| ==> shown[j] == rows[j].(blocks := blocks(rows[j].id))
  }

  lemma {:induction false} PublishedBefore(rows: seq<Lesson>, j: nat)
    requires j < |rows| && rows[j].published
    ensures PublishedIn(rows[..j]) < PublishedIn(rows)
  {
    var n := |rows| - 1;
    if j < n {
      assert rows[..n][..j] == rows[..j];
      PublishedBefore(rows[..n], j);
    }
  }

  lemma {:induction false} VisibleShows(rows: seq<Lesson>, blocks: string -> seq<Block>, enrolled: bool)
    ensures ShowsPublished(Visible(FullLessons(rows, blocks), enrolled), rows, blocks, enrolled)
  {
    if rows != [] {
      var n := |rows| - 1;
      VisibleShows(rows[..n], blocks, enrolled);
      assert FullLessons(rows, blocks)[..n] == FullLessons(rows[..n], blocks);
      var front := Visible(FullLessons(rows[..n], blocks), enrolled);
      var shown := Visible(FullLessons(rows, blocks), enrolled);
      assert front <= shown;
      forall j | 0 <= j < |rows| && rows[j].published
        ensures PublishedIn(rows[..j]) < |shown|
        ensures shown[PublishedIn(rows[..j])] == rows[j].(blocks := if enrolled then blocks(rows[j].id) else [])
      {
        PublishedBefore(rows, j);
        if j < n { assert rows[..n][j] == rows[j] && rows[..n][..j] == rows[..j]; }
      }
    }
  }

  /** Authors get the course with every lesson; everybody else the published lessons of a
      published course, with the blocks exactly if actively enrolled; and what is not to be
      had is not found. */
  lemma WhatATreeShows(repo: Repository, courseId: string, actor: string, admin: bool)
    ensures var r := TreeFor(repo, courseId, actor, admin);
      if courseId !in repo.courses
         || (!IsAuthor(repo, courseId, actor, admin) && repo.courses[courseId].status != Published) then
        r == Err(NotFound)
      else
        && r.Ok? && r.value.courseId == courseId && |r.value.modules| == |repo.modules(courseId)|
        && forall i :: 0 <= i < |r.value.modules| ==>
             var row, shown := repo.modules(courseId)[i], r.value.modules[i];
             && shown.id == row.id && shown.title == row.title && shown.position == row.position
             && (if IsAuthor(repo, courseId, actor, admin) then
                   ShowsAll(shown.lessons, repo.lessons(row.id), repo.blocks)
                 else
                   ShowsPublished(shown.lessons, repo.lessons(row.id), repo.blocks,
                                  ActivelyEnrolled(repo, courseId, actor)))
  {
    forall i | 0 <= i < |repo.modules(courseId)|
      ensures ShowsPublished(Visible(FullLessons(repo.lessons(repo.modules(courseId)[i].id), repo.blocks),
                                     ActivelyEnrolled(repo, courseId, actor)),
                             repo.lessons(repo.modules(courseId)[i].id), repo.blocks,
                             ActivelyEnrolled(repo, courseId, actor))
    {
      VisibleShows(repo.lessons(repo.modules(courseId)[i].id), repo.blocks, ActivelyEnrolled(repo, courseId, actor));
    }
  }

  /** Two modules' rows that differ at most in drafts, or in blocks nobody may read. */
  ghost predicate SameToOthers(a: seq<Lesson>, b: seq<Lesson>, blocks: string -> seq<Block>,
                               blocks': string -> seq<Block>, enrolled: bool)
  {
    && |a| == |b|
    && forall i :: 0 <= i < |a| ==>
         && a[i].published == b[i].published
         && (a[i].published ==> a[i] == b[i] && (enrolled ==> blocks(a[i].id) == blocks'(b[i].id)))
  }

  lemma {:induction false} DraftsUnseen(a: seq<Lesson>, b: seq<Lesson>, blocks: string -> seq<Block>,
                                        blocks': string -> seq<Block>, enrolled: bool)
    requires SameToOthers(a, b, blocks, blocks', enrolled)
    ensures Visible(FullLessons(a, blocks), enrolled) == Visible(FullLessons(b, blocks'), enrolled)
  {
    if a != [] {
      var n := |a| - 1;
      assert FullLessons(a, blocks)[..n] == FullLessons(a[..n], blocks);
      assert FullLessons(b, blocks')[..n] == FullLessons(b[..n], blocks');
      DraftsUnseen(a[..n], b[..n], blocks, blocks', enrolled);
    }
  }

  /** Two repositories whose courses, enrollments and modules are the same, and whose
      lessons differ at most in drafts, or in blocks when the actor is not actively enrolled,
      give everybody but the author the same tree. */
  lemma DraftsInvisible(repo: Repository, repo': Repository, courseId: string, actor: string)
    requires repo'.courses == repo.courses && repo'.enrollments == repo.enrollments
    requires repo'.modules(courseId) == repo.modules(courseId)
    requires courseId in repo.courses ==> !IsAuthor(repo, courseId, actor, false)
    requires forall i :: 0 <= i < |repo.modules(courseId)| ==>
      var id := repo.modules(courseId)[i].id;
      SameToOthers(repo.lessons(id), repo'.lessons(id), repo.blocks, repo'.blocks,
                   ActivelyEnrolled(repo, courseId, actor))
    ensures TreeFor(repo, courseId, actor, false) == TreeFor(repo', courseId, actor, false)
  {
    var modules, enrolled := repo.modules(courseId), HasActiveEnrollment(repo, courseId, actor);
    var full, full' := FullTree(repo, courseId), FullTree(repo', courseId);
    forall i | 0 <= i < |modules| ensures View(full, enrolled).modules[i] == View(full', enrolled).modules[i] {
      DraftsUnseen(repo.lessons(modules[i].id), repo'.lessons(modules[i].id), repo.blocks, repo'.blocks, enrolled);
    }
    assert View(full, enrolled) == View(full', enrolled);
  }
}
