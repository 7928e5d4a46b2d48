/** Small shared vocabulary: optional values, results with the application's error
    codes, whitespace trimming as the services use it, and facts about lists. */
module Common {

  datatype Option<+T> = None | Some(value: T) {
    predicate IsFailure() { None? }
    function PropagateFailure<U>(): Option<U> requires None? { None }
    function Extract(): T requires Some? { value }
    function GetOr(default: T): T { if Some? then value else default }
  }

  /** The error codes of internal/apperr. */
  datatype Error = Internal | Validation | Unauthorized | Forbidden | NotFound | Conflict

  datatype Result<+T> = Ok(value: T) | Err(error: Error) {
    predicate IsFailure() { Err? }
    function PropagateFailure<U>(): Result<U> requires Err? { Err(error) }
    function Extract(): T requires Ok? { value }
  }

  function ToError<T>(r: Result<T>): Option<Error> {
    match r
    case Ok(_) => None
    case Err(e) => Some(e)
  }

  /** Why the actor may not manage a course, if so. `courses` holds each course's teacher. */
  function WriteError(courses: map<string, string>, actor: string, courseId: string, admin: bool): Option<Error> {
    if courseId !in courses then Some(NotFound)
    else if admin || courses[courseId] == actor then None
    else Some(Forbidden)
  }

  /** Go's unicode.IsSpace. */
  predicate IsSpace(c: char) {
    || '\t' <= c <= '\r' || c == ' ' || c == '\U{85}' || c == '\U{A0}' || c == '\U{1680}'
    || '\U{2000}' <= c <= '\U{200A}' || c == '\U{2028}' || c == '\U{2029}'
    || c == '\U{202F}' || c == '\U{205F}' || c == '\U{3000}'
  }

  function TrimLeft(s: string): string {
    if s != [] && IsSpace(s[0]) then TrimLeft(s[1..]) else s
  }

  function TrimRight(s: string): string {
    if s != [] && IsSpace(s[|s| - 1]) then TrimRight(s[..|s| - 1]) else s
  }

  /** Go's strings.TrimSpace. */
  function TrimSpace(s: string): string {
    TrimRight(TrimLeft(s))
  }

  lemma {:induction false} TrimLeftIs(s: string) returns (i: nat)
    ensures i <= |s| && TrimLeft(s) == s[i..] && (forall k :: 0 <= k < i ==> IsSpace(s[k]))
    ensures i < |s| ==> !IsSpace(s[i])
  {
    i := 0;
    if s != "" && IsSpace(s[0]) {
      i := TrimLeftIs(s[1..]);
      i := i + 1;
    }
  }

  lemma {:induction false} TrimRightIs(s: string) returns (j: nat)
    ensures j <= |s| && TrimRight(s) == s[..j] && (forall k :: j <= k < |s| ==> IsSpace(s[k]))
    ensures j > 0 ==> !IsSpace(s[j - 1])
  {
    j := |s|;
    if s != "" && IsSpace(s[|s| - 1]) { j := TrimRightIs(s[..|s| - 1]); }
  }

  /** Trimming cuts off the spaces at both ends and nothing else. */
  lemma TrimIs(s: string) returns (i: nat, j: nat)
    ensures i <= j <= |s| && TrimSpace(s) == s[i..j]
    ensures forall k :: 0 <= k < i || j <= k < |s| ==> IsSpace(s[k])
    ensures i < j ==> !IsSpace(s[i]) && !IsSpace(s[j - 1])
  {
    i := TrimLeftIs(s);
    var m := TrimRightIs(s[i..]);
    j := i + m;
  }

  ghost predicate NoDuplicates<T>(s: seq<T>) {
    forall i, j :: 0 <= i < j < |s| ==> s[i] != s[j]
  }

  /** The elements of a list as a set. */
  ghost function Elements<T>(s: seq<T>): set<T> {
    set x | x in s
  }

  /** Pigeonhole: a list is as long as its element set exactly when nothing repeats. */
  lemma {:induction false} LengthIsCardinality<T>(s: seq<T>)
    ensures |Elements(s)| <= |s|
    ensures |Elements(s)| == |s| <==> NoDuplicates(s)
  {
    if s == [] {
      assert Elements(s) == {};
    } else {
      var last, front := s[|s| - 1], s[..|s| - 1];
      assert s == front + [last];
      LengthIsCardinality(front);
      assert Elements(s) == Elements(front) + {last};
      if last in front {
        assert Elements(s) == Elements(front);
        var i :| 0 <= i < |front| && front[i] == last;
        assert s[i] == s[|s| - 1];
      }
    }
  }

  /** A name of n letters. */
  function Name(n: nat): (r: string)
    ensures |r| == n
  {
    if n == 0 then "" else Name(n - 1) + "n"
  }
}
