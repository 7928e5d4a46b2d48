/** Enrollments and how the repository lists them
    (internal/repository/postgres/enrollment.go): newest first, one page at a time, and a
    page size over 100 is not granted but replaced by 20. */
module Enrollments {

  datatype EnrollmentStatus = Active | Waitlisted | Cancelled

  datatype Enrollment = Enrollment(
    courseId: string, userId: string, status: EnrollmentStatus,
    userEmail: string, userFullName: string, courseTitle: string, courseSlug: string)

  /** The unique index on (course, user). */
  ghost predicate OneSeatEach(rows: seq<Enrollment>) {
    forall i, j :: 0 <= i < j < |rows| ==> rows[i].courseId != rows[j].courseId || rows[i].userId != rows[j].userId
  }

  /** The rows of a table in creation order that satisfy a condition, newest first. */
  function NewestFirst(rows: seq<Enrollment>, wanted: Enrollment -> bool): seq<Enrollment> {
    if rows == [] then []
    else
      var n := |rows| - 1;
      (if wanted(rows[n]) then [rows[n]] else []) + NewestFirst(rows[..n], wanted)
  }

  function ActiveIn(courseId: string): Enrollment -> bool {
    (e: Enrollment) => e.courseId == courseId && e.status == Active
  }

  function ActiveOf(userId: string): Enrollment -> bool {
    (e: Enrollment) => e.userId == userId && e.status == Active
  }

  /** The page size the repository uses for a requested one. */
  function PageSize(perPage: int): nat {
    if perPage < 1 || perPage > 100 then 20 else perPage
  }

  function FirstPage(rows: seq<Enrollment>, perPage: int): seq<Enrollment> {
    if |rows| <= PageSize(perPage) then rows else rows[..PageSize(perPage)]
  }

  /** The first page of a course's active enrollments. */
  function ListByCourse(rows: seq<Enrollment>, courseId: string, perPage: int): seq<Enrollment> {
    FirstPage(NewestFirst(rows, ActiveIn(courseId)), perPage)
  }

  /** The first page of a user's active enrollments. */
  function ListByUser(rows: seq<Enrollment>, userId: string, perPage: int): seq<Enrollment> {
    FirstPage(NewestFirst(rows, ActiveOf(userId)), perPage)
  }

  lemma {:induction false} NewestFirstIs(rows: seq<Enrollment>, wanted: Enrollment -> bool)
    ensures forall e :: e in NewestFirst(rows, wanted) <==> e in rows && wanted(e)
    ensures OneSeatEach(rows) ==> OneSeatEach(NewestFirst(rows, wanted))
  {
    if rows != [] {
      var n := |rows| - 1;
      NewestFirstIs(rows[..n], wanted);
      assert rows == rows[..n] + [rows[n]];
      if OneSeatEach(rows) {
        var rest := NewestFirst(rows[..n], wanted);
        forall i | 0 <= i < |rest| ensures rest[i].courseId != rows[n].courseId || rest[i].userId != rows[n].userId {
          assert rest[i] in rows[..n];
        }
      }
    }
  }

  lemma {:induction false} AllWanted(rows: seq<Enrollment>, wanted: Enrollment -> bool)
    requires forall i :: 0 <= i < |rows| ==> wanted(rows[i])
    ensures |NewestFirst(rows, wanted)| == |rows|
    ensures forall i :: 0 <= i < |rows| ==> NewestFirst(rows, wanted)[i] == rows[|rows| - 1 - i]
  {
    if rows != [] { AllWanted(rows[..|rows| - 1], wanted); }
  }

  /** A page lists active enrollments of that course only, or of that user only. */
  lemma PagesAreActive(rows: seq<Enrollment>, courseId: string, userId: string, perPage: int)
    ensures forall e :: e in ListByCourse(rows, courseId, perPage) ==>
      e in rows && e.courseId == courseId && e.status == Active
    ensures forall e :: e in ListByUser(rows, userId, perPage) ==>
      e in rows && e.userId == userId && e.status == Active
  {
    NewestFirstIs(rows, ActiveIn(courseId));
    NewestFirstIs(rows, ActiveOf(userId));
    var ofCourse, ofUser := NewestFirst(rows, ActiveIn(courseId)), NewestFirst(rows, ActiveOf(userId));
    assert forall e :: e in ofCourse[..|FirstPage(ofCourse, perPage)|] ==> e in ofCourse;
    assert forall e :: e in ofUser[..|FirstPage(ofUser, perPage)|] ==> e in ofUser;
  }
}
