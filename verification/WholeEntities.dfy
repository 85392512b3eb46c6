/**
 The documented promise of splitting, over a whole split (format.go:100-110): which entities that fit a chunk end up
 whole in one. An entity is whole in a chunk when the chunk has all of it but split whitespace.
 */
module WholeEntities {
  import opened Utf16
  import opened Entities
  import opened Format
  import opened SplitTheorems

  /** Unit i belongs to the entity and is not split whitespace. */
  ghost predicate Content(u: seq<Unit>, e: Entity, i: int) {
    0 <= i < |u| && e.Covers(i) && !IsSplitSpace(u[i])
  }

  ghost predicate ContentBefore(u: seq<Unit>, e: Entity, q: nat) {
    forall i | Content(u, e, i) :: i < q
  }

  ghost predicate ContentFrom(u: seq<Unit>, e: Entity, q: nat) {
    forall i | Content(u, e, i) :: q <= i
  }

  ghost predicate WholeIn(u: seq<Unit>, e: Entity, r: Range) {
    ContentFrom(u, e, r.start) && ContentBefore(u, e, r.end)
  }

  ghost predicate IsWhole(u: seq<Unit>, e: Entity, ranges: seq<Range>) {
    ContentBefore(u, e, 0) || exists r | r in ranges :: WholeIn(u, e, r)
  }

  /** Where the windows of a split start. */
  function Starts(u: seq<Unit>, entities: seq<Entity>, start: nat, limit: int): seq<nat>
    requires limit > 0 && start <= |u|
    decreases |u| - start
  {
    if start == |u| then []
    else [start] + Starts(u, entities, SkipSpaces(u, SplitAt(u, entities, start, limit)), limit)
  }

  lemma {:induction false} StartsFollow(u: seq<Unit>, entities: seq<Entity>, start: nat, limit: int)
    requires limit > 0 && start <= |u|
    ensures forall s | s in Starts(u, entities, start, limit) :: start <= s < |u|
    decreases |u| - start
  {
    hide SplitAt, SkipSpaces;
    if start < |u| {
      StartsFollow(u, entities, SkipSpaces(u, SplitAt(u, entities, start, limit)), limit);
    }
  }

  lemma RangesFollow(u: seq<Unit>, entities: seq<Entity>, start: nat, limit: int)
    requires limit > 0 && start <= |u|
    ensures forall r | r in Ranges(u, entities, start, limit) :: start <= r.start < r.end <= |u|
  {
    ChunksFollowRanges(u, entities, start, limit);
    hide Ranges, Chunks;
  }

  /** A window's split point parts no content of the entity. */
  ghost predicate PartsNot(u: seq<Unit>, e: Entity, q: nat) {
    ContentBefore(u, e, q) || ContentFrom(u, e, q)
  }

  /** The windows that start inside the entity are all split beside its content. */
  ghost predicate NoWindowParts(u: seq<Unit>, entities: seq<Entity>, limit: int, e: Entity, starts: seq<nat>)
    requires limit > 0 && forall s | s in starts :: s < |u|
  {
    forall s | s in starts && e.offset <= s < e.End() :: PartsNot(u, e, SplitAt(u, entities, s, limit))
  }

  /** A window that does part a fitting entity's content starts inside the entity. */
  lemma PartedFromInside(u: seq<Unit>, entities: seq<Entity>, start: nat, limit: int, e: Entity)
    requires limit > 0 && start < |u| && e in entities && e.length <= limit && ContentFrom(u, e, start)
    requires !PartsNot(u, e, SplitAt(u, entities, start, limit))
    ensures e.offset <= start < e.End()
  {
    var q := SplitAt(u, entities, start, limit);
    var j :| Content(u, e, j) && !(j < q);
    var i :| Content(u, e, i) && !(q <= i);
    assert e.Crosses(q) || e.offset >= q || e.offset <= i;
    if start + limit < |u| {
      LaterEntitiesAreWhole(u, entities, start, limit);
    }
    hide SplitAt;
  }

  /** Content that comes before the split point is in the window's own chunk. */
  lemma ContentIsKept(u: seq<Unit>, entities: seq<Entity>, start: nat, limit: int, e: Entity)
    requires limit > 0 && start < |u| && ContentFrom(u, e, start)
    requires !ContentBefore(u, e, 0) && ContentBefore(u, e, SplitAt(u, entities, start, limit))
    ensures exists r | r in RangeAt(u, entities, start, limit) :: WholeIn(u, e, r)
  {
    var q := SplitAt(u, entities, start, limit);
    var cut := TrimBack(u, start, q);
    TrimBackDropsSpaces(u, start, q);
    hide SplitAt, TrimBack;
    assert ContentBefore(u, e, cut);
    var i :| Content(u, e, i) && !(i < 0);
    assert start <= i < cut;
    assert Range(start, cut) in RangeAt(u, entities, start, limit) && WholeIn(u, e, Range(start, cut));
  }

  /** With content on or after the split point only, the window's own chunk has none of it. */
  lemma ContentIsLeft(u: seq<Unit>, entities: seq<Entity>, start: nat, limit: int, e: Entity)
    requires limit > 0 && start < |u| && ContentFrom(u, e, SplitAt(u, entities, start, limit))
    ensures ContentFrom(u, e, SkipSpaces(u, SplitAt(u, entities, start, limit)))
    ensures (exists r | r in RangeAt(u, entities, start, limit) :: WholeIn(u, e, r)) ==> ContentBefore(u, e, 0)
  {
    SkipSpacesDropsSpaces(u, SplitAt(u, entities, start, limit));
    hide SplitAt, SkipSpaces;
  }

  /** Content on both sides of the split point is in no single chunk. */
  lemma PartedIsNotWhole(u: seq<Unit>, entities: seq<Entity>, start: nat, limit: int, e: Entity)
    requires limit > 0 && start < |u| && !PartsNot(u, e, SplitAt(u, entities, start, limit))
    ensures !IsWhole(u, e, Ranges(u, entities, start, limit))
  {
    var q := SplitAt(u, entities, start, limit);
    var next := SkipSpaces(u, q);
    var j :| Content(u, e, j) && !(j < q);
    var i :| Content(u, e, i) && !(q <= i);
    RangesFollow(u, entities, next, limit);
    hide SplitAt, SkipSpaces;
    forall r | r in Ranges(u, entities, start, limit) ensures !WholeIn(u, e, r) {
      if r in RangeAt(u, entities, start, limit) {
        assert r.end <= q;
      } else {
        assert r in Ranges(u, entities, next, limit);
      }
    }
  }

  lemma {:induction false} WholeFrom(u: seq<Unit>, entities: seq<Entity>, start: nat, limit: int, e: Entity)
    requires limit > 0 && start <= |u| && e in entities && e.length <= limit && ContentFrom(u, e, start)
    ensures forall s | s in Starts(u, entities, start, limit) :: s < |u|
    ensures IsWhole(u, e, Ranges(u, entities, start, limit))
            <==> NoWindowParts(u, entities, limit, e, Starts(u, entities, start, limit))
    decreases |u| - start
  {
    StartsFollow(u, entities, start, limit);
    if start < |u| {
      var q := SplitAt(u, entities, start, limit);
      var next := SkipSpaces(u, q);
      var starts, ranges := Starts(u, entities, next, limit), Ranges(u, entities, next, limit);
      StartsFollow(u, entities, next, limit);
      assert Starts(u, entities, start, limit) == [start] + starts;
      assert Ranges(u, entities, start, limit) == RangeAt(u, entities, start, limit) + ranges;
      hide SplitAt, SkipSpaces, RangeAt, Ranges, Starts, Content;
      if !PartsNot(u, e, q) {
        PartedIsNotWhole(u, entities, start, limit, e);
        PartedFromInside(u, entities, start, limit, e);
        assert start in [start] + starts;
      } else if ContentFrom(u, e, q) {
        ContentIsLeft(u, entities, start, limit, e);
        WholeFrom(u, entities, next, limit, e);
      } else {
        ContentIsKept(u, entities, start, limit, e);
        assert forall s | s in starts :: ContentBefore(u, e, SplitAt(u, entities, s, limit));
      }
    } else {
      assert ContentBefore(u, e, 0);
    }
  }

  /**
   The window that starts at s keeps the entity together: the text ends in it; or one of its good points has all of
   the entity's content before it; or all of its good points have it behind.
   */
  ghost predicate KeepsTogether(u: seq<Unit>, entities: seq<Entity>, s: nat, limit: int, e: Entity)
    requires limit > 0 && s < |u|
  {
    || s + limit >= |u|
    || (exists x: nat :: s < x <= WindowEdge(u, s, limit) && Good(u, entities, s, limit, x) && ContentBefore(u, e, x))
    || (forall x: nat | s < x <= WindowEdge(u, s, limit) && Good(u, entities, s, limit, x) :: ContentFrom(u, e, x))
  }

  lemma KeepsTogetherExactly(u: seq<Unit>, entities: seq<Entity>, s: nat, limit: int, e: Entity)
    requires limit > 0 && s < |u|
    ensures PartsNot(u, e, SplitAt(u, entities, s, limit)) <==> KeepsTogether(u, entities, s, limit, e)
  {
    if s + limit < |u| {
      var w, q := WindowEdge(u, s, limit), SplitAt(u, entities, s, limit);
      GreatestGoodIsGreatest(u, entities, s, limit, w);
      assert s < q <= w && Good(u, entities, s, limit, q);
      hide Good, WindowEdge, Content;
      assert forall x: nat | s < x <= w && Good(u, entities, s, limit, x) :: x <= q;
    }
  }

  /**
   For any text, entities and limit: an entity that fits the limit is whole in one chunk of the split exactly when
   every window that starts inside it keeps it together. In particular it is whole when no window starts inside it.
   */
  lemma WholeExactly(u: seq<Unit>, entities: seq<Entity>, limit: int, e: Entity)
    requires limit > 0 && e in entities && e.length <= limit
    ensures forall s | s in Starts(u, entities, 0, limit) :: s < |u|
    ensures IsWhole(u, e, Ranges(u, entities, 0, limit))
            <==> forall s | s in Starts(u, entities, 0, limit) && e.offset <= s < e.End() ::
                   KeepsTogether(u, entities, s, limit, e)
  {
    WholeFrom(u, entities, 0, limit, e);
    hide KeepsTogether, IsWhole, Ranges, Starts, PartsNot, SplitAt;
    forall s | s in Starts(u, entities, 0, limit)
      ensures PartsNot(u, e, SplitAt(u, entities, s, limit)) <==> KeepsTogether(u, entities, s, limit, e)
    {
      KeepsTogetherExactly(u, entities, s, limit, e);
    }
  }
}
