/** Ordered child rows: a question's place in its quiz is a position, unique within the
    quiz, and listings go by position (internal/repository/postgres/curriculum.go and
    assessment.go). A table of places is kept here as the list in position order. */
module Positions {
  import opened Common

  datatype Slot = Slot(id: nat, position: int)

  function Ids(slots: seq<Slot>): (ids: seq<nat>)
    ensures |ids| == |slots|
  {
    seq(|slots|, i requires 0 <= i < |slots| => slots[i].id)
  }

  ghost predicate Increasing(slots: seq<Slot>) {
    && (forall i :: 0 <= i < |slots| ==> slots[i].position >= 0)
    && (forall i, j :: 0 <= i < j < |slots| ==> slots[i].position < slots[j].position)
  }

  /** Each child stands at one position, no two at the same. */
  ghost predicate Ordered(slots: seq<Slot>) {
    && Increasing(slots)
    && (forall i, j :: 0 <= i < j < |slots| ==> slots[i].id != slots[j].id)
  }

  function MaxPosition(slots: seq<Slot>): int {
    if slots == [] then -1
    else
      var n := |slots| - 1;
      if MaxPosition(slots[..n]) > slots[n].position then MaxPosition(slots[..n]) else slots[n].position
  }

  function NextPosition(slots: seq<Slot>): int {
    MaxPosition(slots) + 1
  }

  /** The places of the children that are not named. */
  function Unlisted(slots: seq<Slot>, named: seq<nat>): seq<Slot> {
    if slots == [] then []
    else
      var n := |slots| - 1;
      Unlisted(slots[..n], named) + (if slots[n].id in named then [] else [slots[n]])
  }

  /** Moving the named children to positions 0, 1, 2, ... one after the other. */
  function Placed(ids: seq<nat>): seq<Slot> {
    if ids == [] then []
    else
      var n := |ids| - 1;
      Unlisted(Placed(ids[..n]), [ids[n]]) + [Slot(ids[n], n)]
  }

  predicate Taken(slots: seq<Slot>, below: int) {
    exists i :: 0 <= i < |slots| && 0 <= slots[i].position < below
  }

  /** Reordering: every id must be a child, and the unique index refuses a position at
      which some child that is not named stands. */
  function Reordered(slots: seq<Slot>, ids: seq<nat>): Result<seq<Slot>> {
    if ids == [] || (exists i :: 0 <= i < |ids| && ids[i] !in Ids(slots)) then Err(Validation)
    else if Taken(Unlisted(slots, ids), |ids|) then Err(Internal)
    else Ok(Placed(ids) + Unlisted(slots, ids))
  }

  method Reorder(slots: seq<Slot>, ids: seq<nat>) returns (r: Result<seq<Slot>>)
    ensures r == Reordered(slots, ids)
  {
    if |ids| == 0 { return Err(Validation); }
    for i := 0 to |ids|
      invariant forall k :: 0 <= k < i ==> ids[k] in Ids(slots)
    {
      if ids[i] !in Ids(slots) { return Err(Validation); }
    }
    var others, placed := Unlisted(slots, ids), [];
    for i := 0 to |ids|
      invariant placed == Placed(ids[..i]) && !Taken(others, i)
    {
      assert ids[..i + 1][..i] == ids[..i];
      if Taken(others, i + 1) { return Err(Internal); }
      placed := Unlisted(placed, [ids[i]]) + [Slot(ids[i], i)];
    }
    assert ids[..|ids|] == ids;
    return Ok(placed + others);
  }

  // --- what these lists are ----------------------------------------------------------------

  lemma IdsAre(slots: seq<Slot>, id: nat)
    ensures id in Ids(slots) <==> exists x :: x in slots && x.id == id
  {
    if id in Ids(slots) {
      var i :| 0 <= i < |slots| && Ids(slots)[i] == id;
      assert slots[i] in slots;
    }
    if x :| x in slots && x.id == id {
      var i :| 0 <= i < |slots| && slots[i] == x;
      assert Ids(slots)[i] == id;
    }
  }

  lemma {:induction false} NextIsFree(slots: seq<Slot>)
    ensures forall i :: 0 <= i < |slots| ==> slots[i].position < NextPosition(slots)
    ensures NextPosition(slots) >= 0
  {
    if slots != [] { NextIsFree(slots[..|slots| - 1]); }
  }

  lemma {:induction false} UnlistedMembers(slots: seq<Slot>, named: seq<nat>)
    ensures forall x :: x in Unlisted(slots, named) <==> x in slots && x.id !in named
  {
    if slots != [] {
      UnlistedMembers(slots[..|slots| - 1], named);
      assert slots == slots[..|slots| - 1] + [slots[|slots| - 1]];
    }
  }

  lemma UnlistedIds(slots: seq<Slot>, named: seq<nat>, id: nat)
    ensures id in Ids(Unlisted(slots, named)) <==> id in Ids(slots) && id !in named
  {
    UnlistedMembers(slots, named);
    IdsAre(slots, id);
    IdsAre(Unlisted(slots, named), id);
  }

  lemma FrontOrdered(slots: seq<Slot>)
    requires Ordered(slots) && slots != []
    ensures var n := |slots| - 1;
      Ordered(slots[..n]) && forall i :: 0 <= i < n ==>
        slots[..n][i].id != slots[n].id && slots[..n][i].position < slots[n].position
  {
  }

  lemma {:induction false} UnlistedOrdered(slots: seq<Slot>, named: seq<nat>)
    requires Ordered(slots)
    ensures Ordered(Unlisted(slots, named))
  {
    if slots != [] {
      var n := |slots| - 1;
      var front := slots[..n];
      FrontOrdered(slots);
      UnlistedOrdered(front, named);
      UnlistedMembers(front, named);
      LastSlot(Unlisted(front, named), front, slots[n]);
    }
  }

  lemma UnlistedIs(slots: seq<Slot>, named: seq<nat>)
    ensures forall x :: x in Unlisted(slots, named) <==> x in slots && x.id !in named
    ensures forall id :: id in Ids(Unlisted(slots, named)) <==> id in Ids(slots) && id !in named
    ensures Ordered(slots) ==> Ordered(Unlisted(slots, named))
  {
    UnlistedMembers(slots, named);
    forall id ensures id in Ids(Unlisted(slots, named)) <==> id in Ids(slots) && id !in named {
      UnlistedIds(slots, named, id);
    }
    if Ordered(slots) { UnlistedOrdered(slots, named); }
  }

  /** One more place after all others. */
  lemma LastSlot(rest: seq<Slot>, front: seq<Slot>, last: Slot)
    requires Ordered(rest) && (forall x :: x in rest ==> x in front) && last.position >= 0
    requires forall i :: 0 <= i < |front| ==> front[i].id != last.id && front[i].position < last.position
    ensures Ordered(rest + [last])
  {
    forall i | 0 <= i < |rest| ensures rest[i].id != last.id && rest[i].position < last.position {
      assert rest[i] in rest;
    }
  }

  lemma {:induction false} NextIsTight(slots: seq<Slot>)
    ensures slots == [] ==> NextPosition(slots) == 0
    ensures NextPosition(slots) > 0 ==> exists i :: 0 <= i < |slots| && slots[i].position == NextPosition(slots) - 1
  {
    if slots != [] {
      var n := |slots| - 1;
      NextIsTight(slots[..n]);
      if NextPosition(slots) != slots[n].position + 1 && NextPosition(slots) > 0 {
        var i :| 0 <= i < n && slots[..n][i].position == NextPosition(slots[..n]) - 1;
        assert slots[i].position == NextPosition(slots) - 1;
      }
    }
  }

  /** A new child goes last, right after the last one: at the end of its list, one position
      above the highest, and at position 0 when it is the first. */
  lemma AppendedIs(slots: seq<Slot>, id: nat)
    requires Ordered(slots) && forall i :: 0 <= i < |slots| ==> slots[i].id != id
    ensures Ordered(slots + [Slot(id, NextPosition(slots))])
    ensures NextPosition(slots) == if slots == [] then 0 else slots[|slots| - 1].position + 1
  {
    NextIsFree(slots);
    NextIsTight(slots);
    if slots != [] { assert slots[|slots| - 1].position < NextPosition(slots); }
    LastSlot(slots, slots, Slot(id, NextPosition(slots)));
  }

  /** Where x stands after placing: at the last place that names it. */
  ghost predicate LastPlaced(ids: seq<nat>, x: Slot) {
    0 <= x.position < |ids| && ids[x.position] == x.id && x.id !in ids[x.position + 1..]
  }

  lemma LastPlacedStep(ids: seq<nat>, x: Slot)
    requires ids != []
    ensures var n := |ids| - 1;
      LastPlaced(ids, x) <==> (LastPlaced(ids[..n], x) && x.id != ids[n]) || x == Slot(ids[n], n)
  {
    var n := |ids| - 1;
    if 0 <= x.position < n {
      assert ids[x.position + 1..] == ids[..n][x.position + 1..] + [ids[n]];
    }
  }

  /** Each named child ends at the place where it is named last. */
  lemma {:induction false} PlacedMembers(ids: seq<nat>, x: Slot)
    ensures x in Placed(ids) <==> LastPlaced(ids, x)
  {
    if ids != [] {
      var n := |ids| - 1;
      PlacedMembers(ids[..n], x);
      UnlistedMembers(Placed(ids[..n]), [ids[n]]);
      LastPlacedStep(ids, x);
    }
  }

  lemma {:induction false} PlacedOrdered(ids: seq<nat>)
    ensures Ordered(Placed(ids))
  {
    if ids != [] {
      var n := |ids| - 1;
      var rest := Unlisted(Placed(ids[..n]), [ids[n]]);
      PlacedOrdered(ids[..n]);
      UnlistedIs(Placed(ids[..n]), [ids[n]]);
      forall i | 0 <= i < |rest| ensures rest[i].id != ids[n] && rest[i].position < n {
        assert rest[i] in rest;
        PlacedMembers(ids[..n], rest[i]);
      }
      LastSlot(rest, rest, Slot(ids[n], n));
    }
  }

  lemma PlacedIds(ids: seq<nat>, id: nat)
    ensures id in Ids(Placed(ids)) <==> id in ids
  {
    IdsAre(Placed(ids), id);
    if id in ids {
      var k := LastNamed(ids, id);
      PlacedMembers(ids, Slot(id, k));
    } else {
      forall x | x in Placed(ids) ensures x.id != id {
        PlacedMembers(ids, x);
      }
    }
  }

  lemma {:induction false} LastNamed(ids: seq<nat>, id: nat) returns (k: nat)
    requires id in ids
    ensures k < |ids| && ids[k] == id && id !in ids[k + 1..]
  {
    var n := |ids| - 1;
    if ids[n] == id {
      k := n;
    } else {
      k := LastNamed(ids[..n], id);
      assert ids[k + 1..] == ids[..n][k + 1..] + [ids[n]];
    }
  }

  /** A successful reordering keeps the children, one place each; the named ones come
      first, each where it is named last, and the others stay where they were. */
  lemma ReorderedIs(slots: seq<Slot>, ids: seq<nat>)
    requires Ordered(slots) && Reordered(slots, ids).Ok?
    ensures var after := Reordered(slots, ids).value;
      && Ordered(after)
      && (forall id :: id in Ids(after) <==> id in Ids(slots))
      && (forall i :: 0 <= i < |after| ==> exists j :: 0 <= j < |slots| && slots[j].id == after[i].id)
      && (forall x :: x in slots && x.id !in ids ==> x in after)
      && (forall k :: 0 <= k < |ids| && ids[k] !in ids[k + 1..] ==> Slot(ids[k], k) in after)
  {
    var placed, others := Placed(ids), Unlisted(slots, ids);
    PlacedOrdered(ids);
    UnlistedIs(slots, ids);
    forall i, j | 0 <= i < |placed| && 0 <= j < |others|
      ensures placed[i].position < others[j].position && placed[i].id != others[j].id
    {
      PlacedMembers(ids, placed[i]);
      assert ids[placed[i].position] in ids && others[j] in others;
    }
    JoinedIs(placed, others);
    forall id ensures id in Ids(placed + others) <==> id in Ids(slots) {
      PlacedIds(ids, id);
    }
    forall i | 0 <= i < |placed + others|
      ensures exists j :: 0 <= j < |slots| && slots[j].id == (placed + others)[i].id {
      assert Ids(placed + others)[i] in Ids(slots);
      var j :| 0 <= j < |slots| && Ids(slots)[j] == Ids(placed + others)[i];
      assert slots[j].id == (placed + others)[i].id;
    }
    forall k | 0 <= k < |ids| && ids[k] !in ids[k + 1..] ensures Slot(ids[k], k) in placed {
      PlacedMembers(ids, Slot(ids[k], k));
    }
  }

  lemma JoinedIs(a: seq<Slot>, b: seq<Slot>)
    requires Ordered(a) && Ordered(b)
    requires forall i, j :: 0 <= i < |a| && 0 <= j < |b| ==> a[i].position < b[j].position && a[i].id != b[j].id
    ensures Ordered(a + b) && Ids(a + b) == Ids(a) + Ids(b)
  {
    assert Ids(a + b) == Ids(a) + Ids(b);
  }

  /** Naming every child once always succeeds and gives exactly the order named. */
  lemma FullReorder(slots: seq<Slot>, ids: seq<nat>)
    requires Ordered(slots) && ids != [] && NoDuplicates(ids) && Elements(ids) == Elements(Ids(slots))
    ensures Reordered(slots, ids).Ok? && Ids(Reordered(slots, ids).value) == ids
  {
    forall i | 0 <= i < |ids| ensures ids[i] in Ids(slots) {
      assert ids[i] in Elements(ids);
    }
    forall id | id in Ids(slots) ensures id in ids {
      assert id in Elements(Ids(slots));
    }
    AllListed(slots, ids);
    PlacedInOrder(ids);
    assert Placed(ids) + [] == Placed(ids);
  }

  lemma {:induction false} AllListed(slots: seq<Slot>, ids: seq<nat>)
    requires forall id :: id in Ids(slots) ==> id in ids
    ensures Unlisted(slots, ids) == []
  {
    if slots != [] {
      var n := |slots| - 1;
      assert Ids(slots)[n] == slots[n].id;
      forall id | id in Ids(slots[..n]) ensures id in ids {
        var i :| 0 <= i < n && Ids(slots[..n])[i] == id;
        assert Ids(slots)[i] == id;
      }
      AllListed(slots[..n], ids);
    }
  }

  lemma {:induction false} NothingUnlisted(slots: seq<Slot>, id: nat)
    requires id !in Ids(slots)
    ensures Unlisted(slots, [id]) == slots
  {
    if slots != [] {
      var n := |slots| - 1;
      assert Ids(slots)[n] == slots[n].id && slots == slots[..n] + [slots[n]];
      IdsAre(slots, id);
      IdsAre(slots[..n], id);
      NothingUnlisted(slots[..n], id);
    }
  }

  lemma {:induction false} PlacedInOrder(ids: seq<nat>)
    requires NoDuplicates(ids)
    ensures Ids(Placed(ids)) == ids
  {
    if ids != [] {
      var n := |ids| - 1;
      PlacedInOrder(ids[..n]);
      NothingUnlisted(Placed(ids[..n]), ids[n]);
      assert ids == ids[..n] + [ids[n]];
      assert Ids(Placed(ids[..n]) + [Slot(ids[n], n)]) == Ids(Placed(ids[..n])) + [ids[n]];
    }
  }
}
