/** Roles and permissions (internal/rbac/rbac.go). Go ranges over a map in no particular
    order; here any order is possible. */
module Rbac {
  import opened Common

  /** The permissions the program names, and any other string. */
  datatype Permission =
    | ProfileRead | ProfileWrite | UsersRead | UsersManage | RolesRead
    | CoursesRead | CoursesWrite | CoursesManage | OrgsCreate | OrgsRead | Other(code: string)

  datatype Role = Student | Teacher | Parent | Admin | Unknown(code: string)

  const ROLE_PERMISSIONS: map<Role, set<Permission>> := map[
    Student := {ProfileRead, ProfileWrite, RolesRead, CoursesRead, OrgsCreate, OrgsRead},
    Teacher := {ProfileRead, ProfileWrite, RolesRead, CoursesRead, CoursesWrite, OrgsCreate, OrgsRead},
    Parent := {ProfileRead, ProfileWrite, RolesRead, CoursesRead, OrgsCreate, OrgsRead},
    Admin := {ProfileRead, ProfileWrite, UsersRead, UsersManage, RolesRead, CoursesRead, CoursesWrite, CoursesManage,
              OrgsCreate, OrgsRead}]

  const ORDER: seq<Permission> := [
    ProfileRead, ProfileWrite, UsersRead, UsersManage, RolesRead,
    CoursesRead, CoursesWrite, CoursesManage, OrgsCreate, OrgsRead]

  /** A missing role reads as no permissions. */
  function PermissionSet(table: map<Role, set<Permission>>, role: Role): set<Permission> {
    if role in table then table[role] else {}
  }

  /** Those of a list that are in a set, in the list's order. */
  function Kept(list: seq<Permission>, set_: set<Permission>): seq<Permission> {
    if list == [] then []
    else
      var n := |list| - 1;
      Kept(list[..n], set_) + if list[n] in set_ then [list[n]] else []
  }

  lemma {:induction false} KeptIs(list: seq<Permission>, set_: set<Permission>)
    ensures Elements(Kept(list, set_)) == Elements(list) * set_
    ensures NoDuplicates(list) ==> NoDuplicates(Kept(list, set_))
  {
    if list != [] {
      var n := |list| - 1;
      KeptIs(list[..n], set_);
      assert list == list[..n] + [list[n]];
      assert Elements(list) == Elements(list[..n]) + {list[n]};
      var rest := Kept(list[..n], set_);
      assert forall i :: 0 <= i < |rest| ==> rest[i] in Elements(rest);
      if list[n] in set_ {
        assert Kept(list, set_) == rest + [list[n]];
        assert Elements(rest + [list[n]]) == Elements(rest) + {list[n]};
      } else {
        assert Kept(list, set_) == rest;
      }
    }
  }

  lemma OneMoreKept(list: seq<Permission>, i: nat, set_: set<Permission>)
    requires i < |list|
    ensures var kept := Kept(list[..i], set_);
      && Kept(list[..i + 1], set_) == (if list[i] in set_ then kept + [list[i]] else kept)
      && Elements(kept + [list[i]]) == Elements(kept) + {list[i]}
  {
    assert list[..i + 1][..i] == list[..i];
  }

  /** A list of exactly the set's members, each once. */
  ghost predicate Arranges(list: seq<Permission>, set_: set<Permission>) {
    NoDuplicates(list) && Elements(list) == set_
  }

  /** A possible answer: the permissions named in the order, in that order, then the rest
      in whatever order the map gave them. */
  ghost predicate Listing(list: seq<Permission>, perms: set<Permission>) {
    exists rest :: Arranges(rest, perms - Elements(ORDER)) && list == Kept(ORDER, perms) + rest
  }

  lemma ConcatArranges(x: seq<Permission>, y: seq<Permission>, a: set<Permission>, b: set<Permission>)
    requires Arranges(x, a) && Arranges(y, b) && a !! b
    ensures Arranges(x + y, a + b)
  {
    assert Elements(x + y) == Elements(x) + Elements(y);
    forall i, j | 0 <= i < j < |x + y| ensures (x + y)[i] != (x + y)[j] {
      if i < |x| <= j {
        assert x[i] in Elements(x) && y[j - |x|] in Elements(y);
      }
    }
  }

  /** Every answer lists exactly the role's permissions, none twice. */
  lemma ListingArranges(list: seq<Permission>, perms: set<Permission>)
    requires Listing(list, perms)
    ensures Arranges(list, perms)
  {
    var rest :| Arranges(rest, perms - Elements(ORDER)) && list == Kept(ORDER, perms) + rest;
    KeptIs(ORDER, perms);
    ConcatArranges(Kept(ORDER, perms), rest, Elements(ORDER) * perms, perms - Elements(ORDER));
    assert perms == Elements(ORDER) * perms + (perms - Elements(ORDER));
  }

  lemma {:induction false} CanArrange(set_: set<Permission>) returns (list: seq<Permission>)
    ensures Arranges(list, set_)
  {
    if set_ == {} {
      list := [];
    } else {
      var p :| p in set_;
      var rest := CanArrange(set_ - {p});
      list := [p] + rest;
      assert Elements(list) == {p} + Elements(rest);
      assert forall i :: 0 <= i < |rest| ==> rest[i] in Elements(rest);
    }
  }

  lemma ArrangesFew(list: seq<Permission>, set_: set<Permission>)
    requires Arranges(list, set_)
    ensures |list| == |set_|
    ensures forall p :: set_ == {p} ==> list == [p]
  {
    LengthIsCardinality(list);
    if |list| > 0 { assert list[0] in Elements(list); }
  }

  /** The answer is the same on every call exactly when at most one of the role's
      permissions is missing from the order. */
  lemma StableListing(perms: set<Permission>)
    ensures (forall a, b :: Listing(a, perms) && Listing(b, perms) ==> a == b) <==> |perms - Elements(ORDER)| <= 1
  {
    if |perms - Elements(ORDER)| <= 1 {
      forall a, b | Listing(a, perms) && Listing(b, perms) ensures a == b {
        var x :| Arranges(x, perms - Elements(ORDER)) && a == Kept(ORDER, perms) + x;
        var y :| Arranges(y, perms - Elements(ORDER)) && b == Kept(ORDER, perms) + y;
        SameArrangement(x, y, perms - Elements(ORDER));
      }
    } else {
      var a, b := TwoListings(perms);
    }
  }

  lemma TwoListings(perms: set<Permission>) returns (a: seq<Permission>, b: seq<Permission>)
    requires |perms - Elements(ORDER)| > 1
    ensures Listing(a, perms) && Listing(b, perms) && a != b
  {
    var loose, named := perms - Elements(ORDER), Kept(ORDER, perms);
    var p, q := TwoMembers(loose);
    var rest := CanArrange(loose - {p, q});
    SwapArranges(p, q, rest, loose);
    assert {p, q} == {q, p};
    SwapArranges(q, p, rest, loose);
    a, b := named + ([p, q] + rest), named + ([q, p] + rest);
    assert a[|named|] == p && b[|named|] == q;
  }

  lemma TwoMembers(set_: set<Permission>) returns (p: Permission, q: Permission)
    requires |set_| > 1
    ensures p in set_ && q in set_ && p != q
  {
    p :| p in set_;
    assert |set_ - {p}| == |set_| - 1;
    q :| q in set_ - {p};
  }

  lemma SameArrangement(x: seq<Permission>, y: seq<Permission>, set_: set<Permission>)
    requires Arranges(x, set_) && Arranges(y, set_) && |set_| <= 1
    ensures x == y
  {
    ArrangesFew(x, set_);
    ArrangesFew(y, set_);
    if set_ != {} {
      var p :| p in set_;
      assert |set_ - {p}| == 0;
      assert set_ == {p};
    }
  }

  lemma SwapArranges(p: Permission, q: Permission, rest: seq<Permission>, set_: set<Permission>)
    requires p in set_ && q in set_ && p != q && Arranges(rest, set_ - {p, q})
    ensures Arranges([p, q] + rest, set_)
  {
    assert Elements([p, q] + rest) == {p, q} + Elements(rest);
    assert forall i :: 0 <= i < |rest| ==> rest[i] in Elements(rest);
  }

  lemma {:induction false} KeptInOrder(list: seq<Permission>, set_: set<Permission>, i: nat, j: nat)
    returns (p: nat, q: nat)
    requires i < j < |Kept(list, set_)|
    ensures p < q < |list| && Kept(list, set_)[i] == list[p] && Kept(list, set_)[j] == list[q]
  {
    var n := |list| - 1;
    var rest := Kept(list[..n], set_);
    if j < |rest| {
      p, q := KeptInOrder(list[..n], set_, i, j);
    } else {
      q := n;
      KeptIs(list[..n], set_);
      assert rest[i] in Elements(rest);
      p :| p < n && list[..n][p] == rest[i];
    }
  }

  /** In every answer the permissions the order names stand as they do in the order, and
      before all others. */
  lemma ListedInOrder(list: seq<Permission>, perms: set<Permission>, i: nat, j: nat)
    requires Listing(list, perms) && i < j < |list|
    ensures list[j] in ORDER ==> exists p, q :: 0 <= p < q < |ORDER| && list[i] == ORDER[p] && list[j] == ORDER[q]
  {
    var rest :| Arranges(rest, perms - Elements(ORDER)) && list == Kept(ORDER, perms) + rest;
    if list[j] in ORDER {
      assert j < |Kept(ORDER, perms)| by { LooseIsNotNamed(rest, perms); }
      var p, q := KeptInOrder(ORDER, perms, i, j);
    }
  }

  lemma LooseIsNotNamed(rest: seq<Permission>, perms: set<Permission>)
    requires Arranges(rest, perms - Elements(ORDER))
    ensures forall k :: 0 <= k < |rest| ==> rest[k] !in ORDER
  {
    forall k | 0 <= k < |rest| ensures rest[k] !in ORDER { assert rest[k] in Elements(rest); }
  }

  /** With the program's own table nothing is loose: the answer is the order, filtered. */
  lemma TableInOrder(role: Role, list: seq<Permission>)
    requires Listing(list, PermissionSet(ROLE_PERMISSIONS, role))
    ensures list == Kept(ORDER, PermissionSet(ROLE_PERMISSIONS, role))
  {
    var perms := PermissionSet(ROLE_PERMISSIONS, role);
    assert perms <= Elements(ORDER) by {
      assert forall i :: 0 <= i < |ORDER| ==> ORDER[i] in Elements(ORDER);
      forall p | p in perms ensures p in Elements(ORDER) {
        NamedInOrder(p);
      }
    }
    var rest :| Arranges(rest, perms - Elements(ORDER)) && list == Kept(ORDER, perms) + rest;
    assert perms - Elements(ORDER) == {};
    ArrangesFew(rest, {});
  }

  lemma NamedInOrder(p: Permission)
    requires !p.Other?
    ensures p in ORDER
  {
    var i := match p
      case ProfileRead => 0 case ProfileWrite => 1 case UsersRead => 2 case UsersManage => 3 case RolesRead => 4
      case CoursesRead => 5 case CoursesWrite => 6 case CoursesManage => 7 case OrgsCreate => 8 case OrgsRead => 9;
    assert ORDER[i] == p;
  }

  // --- the operations --------------------------------------------------------------------------

  /** Go's range over a map: the keys in some order. */
  method Range(perms: set<Permission>) returns (out: seq<Permission>)
    ensures Arranges(out, perms)
  {
    var rest := perms;
    out := [];
    while rest != {}
      invariant NoDuplicates(out) && Elements(out) + rest == perms && Elements(out) !! rest
      decreases |rest|
    {
      var p :| p in rest;
      assert forall i :: 0 <= i < |out| ==> out[i] in Elements(out);
      assert Elements(out + [p]) == Elements(out) + {p};
      out, rest := out + [p], rest - {p};
    }
  }

  method PermissionsFor(table: map<Role, set<Permission>>, role: Role) returns (sorted: seq<Permission>)
    ensures Listing(sorted, PermissionSet(table, role))
    ensures Arranges(sorted, PermissionSet(table, role))
  {
    var perms := PermissionSet(table, role);
    var out := Range(perms);
    sorted := [];
    var seen: set<Permission> := {};
    for i := 0 to |ORDER|
      invariant sorted == Kept(ORDER[..i], perms) && seen == Elements(sorted)
    {
      OneMoreKept(ORDER, i, perms);
      if ORDER[i] in perms {
        sorted := sorted + [ORDER[i]];
        seen := seen + {ORDER[i]};
      }
    }
    assert ORDER[..|ORDER|] == ORDER;
    ghost var named, loose := sorted, perms - Elements(ORDER);
    KeptIs(ORDER, perms);
    for i := 0 to |out|
      invariant sorted == named + Kept(out[..i], loose)
    {
      OneMoreKept(out, i, loose);
      assert out[i] in Elements(out);
      if out[i] !in seen { sorted := sorted + [out[i]]; }
    }
    assert out[..|out|] == out;
    KeptIs(out, loose);
    assert Elements(out) * loose == loose;
    ListingArranges(sorted, perms);
  }

  predicate HasPermission(table: map<Role, set<Permission>>, role: Role, p: Permission) {
    role in table && p in table[role]
  }

  /** The list and the check agree, for every role, known or not. */
  lemma ListedIffHeld(table: map<Role, set<Permission>>, role: Role, list: seq<Permission>, p: Permission)
    requires Listing(list, PermissionSet(table, role))
    ensures p in list <==> HasPermission(table, role, p)
  {
    ListingArranges(list, PermissionSet(table, role));
    assert p in list <==> p in Elements(list);
  }

  /** The program's own table: only administrators manage users and courses, only they and
      teachers write courses, every role has the rest, and an unknown role has nothing. */
  lemma WhoIsPrivileged(role: Role, p: Permission)
    ensures HasPermission(ROLE_PERMISSIONS, role, p) <==>
      match p
      case UsersRead => role == Admin
      case UsersManage => role == Admin
      case CoursesManage => role == Admin
      case CoursesWrite => role == Admin || role == Teacher
      case Other(_) => false
      case _ => !role.Unknown?
  {
  }

  method HasAnyRole(role: Role, allowed: seq<Role>) returns (found: bool)
    ensures found <==> role in allowed
  {
    for i := 0 to |allowed|
      invariant role !in allowed[..i]
    {
      if role == allowed[i] { return true; }
    }
    return false;
  }
}
