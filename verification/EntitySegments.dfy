/**
 Splitting a text into segments at every entity boundary (entity_text.go), the reverse of rendering.
 */
module EntitySegments {
  import opened Utf16
  import opened Entities
  import opened FormatEntities
  import opened RenderTheorems

  datatype Segment = Segment(text: Text, entities: seq<Entity>)

  // --------------------------------------------------------------------------
  // Boundaries

  function Clamp(i: int, max: nat): nat {
    if i < 0 then 0 else if i > max then max else i
  }

  /** The part of [start, end) inside [0, max), as a pair of bounds in order. */
  function Clamped(start: int, end: int, max: nat): (nat, nat) {
    var s, e := Clamp(start, max), Clamp(end, max);
    (if s > e then e else s, e)
  }

  method ClipRange(start: int, end: int, max: nat) returns (s: int, e: int)
    ensures 0 <= s <= e <= max && (s, e) == Clamped(start, end, max)
  {
    s, e := start, end;
    if s < 0 {
      s := 0;
    }
    if e < 0 {
      e := 0;
    }
    if s > max {
      s := max;
    }
    if e > max {
      e := max;
    }
    if s > e {
      s := e;
    }
  }

  function SnapOutOfSurrogate(u: seq<Unit>, b: nat): nat
    requires b <= |u|
  {
    if 0 < b < |u| && IsHighSurrogate(u[b - 1]) then b - 1 else b
  }

  /** The two boundaries an entity contributes. */
  function BoundsOf(u: seq<Unit>, e: Entity): set<nat> {
    var (s, t) := Clamped(e.offset, e.End(), |u|);
    {SnapOutOfSurrogate(u, s), SnapOutOfSurrogate(u, t)}
  }

  predicate IsBoundary(u: seq<Unit>, entities: seq<Entity>, b: nat) {
    b == 0 || b == |u| || exists k :: 0 <= k < |entities| && b in BoundsOf(u, entities[k])
  }

  predicate Ascending(bounds: seq<nat>) {
    forall i, j | 0 <= i < j < |bounds| :: bounds[i] < bounds[j]
  }

  /** bounds lists exactly the boundaries, in ascending order. */
  ghost predicate ListsBoundaries(u: seq<Unit>, entities: seq<Entity>, bounds: seq<nat>) {
    && Ascending(bounds)
    && (forall b: nat :: b in bounds <==> IsBoundary(u, entities, b))
  }

  /** Go's sort.Ints over the keys of a map, which come in any order: insertion of one key after another. */
  method SortKeys(keys: set<nat>) returns (sorted: seq<nat>)
    ensures Ascending(sorted) && forall b :: b in sorted <==> b in keys
  {
    sorted := [];
    var rest := keys;
    while rest != {}
      invariant rest <= keys && Ascending(sorted)
      invariant forall b :: b in sorted <==> b in keys - rest
      decreases rest
    {
      var key :| key in rest;
      var i := |sorted|;
      while i > 0 && sorted[i - 1] > key
        invariant 0 <= i <= |sorted| && forall j | i <= j < |sorted| :: key < sorted[j]
      {
        i := i - 1;
      }
      assert i > 0 ==> sorted[i - 1] in sorted;
      InsertAscending(sorted, i, key);
      forall b: nat {
        InsertMembers(sorted, i, key, b);
      }
      sorted := sorted[..i] + [key] + sorted[i..];
      rest := rest - {key};
    }
  }

  lemma InsertAscending(sorted: seq<nat>, i: nat, key: nat)
    requires Ascending(sorted) && i <= |sorted|
    requires i > 0 ==> sorted[i - 1] < key
    requires forall j | i <= j < |sorted| :: key < sorted[j]
    ensures Ascending(sorted[..i] + [key] + sorted[i..])
  {
    var longer := sorted[..i] + [key] + sorted[i..];
    assert forall j | 0 <= j < i :: sorted[j] < key;
    forall a, b | 0 <= a < b < |longer| ensures longer[a] < longer[b] {
      assert longer[a] == if a < i then sorted[a] else if a == i then key else sorted[a - 1];
      assert longer[b] == if b < i then sorted[b] else if b == i then key else sorted[b - 1];
    }
  }

  lemma InsertMembers(sorted: seq<nat>, i: nat, key: nat, b: nat)
    requires i <= |sorted|
    ensures b in sorted[..i] + [key] + sorted[i..] <==> b in sorted || b == key
  {
    assert sorted == sorted[..i] + sorted[i..];
  }

  method EntityBoundaries(entities: seq<Entity>, u: seq<Unit>) returns (bounds: seq<nat>)
    ensures ListsBoundaries(u, entities, bounds)
  {
    var keys: set<nat> := {0, |u|};
    for k := 0 to |entities|
      invariant forall b: nat :: b in keys <==> IsBoundary(u, entities[..k], b)
    {
      var s, t := ClipRange(entities[k].offset, entities[k].End(), |u|);
      IsBoundarySnoc(u, entities, k);
      keys := keys + {SnapOutOfSurrogate(u, s)};
      keys := keys + {SnapOutOfSurrogate(u, t)};
    }
    assert entities[..|entities|] == entities;
    bounds := SortKeys(keys);
  }

  lemma IsBoundarySnoc(u: seq<Unit>, entities: seq<Entity>, k: nat)
    requires k < |entities|
    ensures forall b: nat :: IsBoundary(u, entities[..k + 1], b)
                             <==> IsBoundary(u, entities[..k], b) || b in BoundsOf(u, entities[k])
  {
    forall b: nat | IsBoundary(u, entities[..k], b) || b in BoundsOf(u, entities[k])
      ensures IsBoundary(u, entities[..k + 1], b)
    {
      if b != 0 && b != |u| {
        if b in BoundsOf(u, entities[k]) {
          assert entities[..k + 1][k] == entities[k];
        } else {
          var j :| 0 <= j < k && b in BoundsOf(u, entities[..k][j]);
          assert entities[..k + 1][j] == entities[..k][j];
        }
      }
    }
    forall b: nat | IsBoundary(u, entities[..k + 1], b) && b !in BoundsOf(u, entities[k])
      ensures IsBoundary(u, entities[..k], b)
    {
      if b != 0 && b != |u| {
        var j :| 0 <= j < k + 1 && b in BoundsOf(u, entities[..k + 1][j]);
        assert entities[..k][j] == entities[..k + 1][j];
      }
    }
  }

  // --------------------------------------------------------------------------
  // Segments

  /** The entities covering [start, end) in full, in order. */
  function Covering(entities: seq<Entity>, start: int, end: int): seq<Entity> {
    if entities == [] then []
    else
      var e := entities[|entities| - 1];
      Covering(entities[..|entities| - 1], start, end) + (if e.offset <= start && end <= e.End() then [e] else [])
  }

  method CoveringEntities(entities: seq<Entity>, start: int, end: int) returns (covering: seq<Entity>)
    ensures covering == Covering(entities, start, end)
  {
    covering := [];
    for k := 0 to |entities|
      invariant covering == Covering(entities[..k], start, end)
    {
      assert entities[..k + 1][..k] == entities[..k];
      var e := entities[k];
      if e.offset <= start && end <= e.End() {
        covering := covering + [e];
      }
    }
    assert entities[..|entities|] == entities;
  }

  function SegmentAt(u: seq<Unit>, entities: seq<Entity>, start: nat, end: nat): Segment
    requires start <= end <= |u|
  {
    Segment(Decode(u[start..end]), Covering(entities, start, end))
  }

  predicate IsSegment(u: seq<Unit>, entities: seq<Entity>, bounds: seq<nat>, k: nat, segment: Segment) {
    && k + 1 < |bounds| && bounds[k] < bounds[k + 1] <= |u|
    && segment == SegmentAt(u, entities, bounds[k], bounds[k + 1])
  }

  /** segments are the pieces between consecutive boundaries; an empty text has none. */
  ghost predicate SegmentsBetween(u: seq<Unit>, entities: seq<Entity>, bounds: seq<nat>, segments: seq<Segment>) {
    if u == [] then segments == []
    else
      && ListsBoundaries(u, entities, bounds)
      && |segments| == |bounds| - 1
      && forall k | 0 <= k < |segments| :: IsSegment(u, entities, bounds, k, segments[k])
  }

  lemma BoundsInText(u: seq<Unit>, entities: seq<Entity>, bounds: seq<nat>)
    requires ListsBoundaries(u, entities, bounds) && u != []
    ensures |bounds| >= 2 && bounds[0] == 0 && bounds[|bounds| - 1] == |u|
    ensures forall k | 0 <= k < |bounds| :: bounds[k] <= |u|
  {
    assert IsBoundary(u, entities, 0) && IsBoundary(u, entities, |u|);
    assert 0 in bounds && |u| in bounds;
    var i :| 0 <= i < |bounds| && bounds[i] == 0;
    var j :| 0 <= j < |bounds| && bounds[j] == |u|;
    forall k | 0 <= k < |bounds| ensures bounds[k] <= |u| {
      assert bounds[k] in bounds;
    }
    assert bounds[0] in bounds && bounds[|bounds| - 1] in bounds;
  }

  method EntitySegments(text: Text, entities: seq<Entity>) returns (segments: seq<Segment>)
    ensures exists bounds :: SegmentsBetween(Encode(text), entities, bounds, segments)
  {
    var u := Encode(text);
    segments := [];
    if |u| == 0 {
      assert SegmentsBetween(u, entities, [], segments);
      return;
    }
    var cuts := EntityBoundaries(entities, u);
    BoundsInText(u, entities, cuts);
    for i := 0 to |cuts| - 1
      invariant |segments| == i
      invariant forall k | 0 <= k < i :: IsSegment(u, entities, cuts, k, segments[k])
    {
      var start, end := cuts[i], cuts[i + 1];
      assert start < end;  // the source's skip of empty runs is never taken
      var covering := CoveringEntities(entities, start, end);
      segments := segments + [Segment(Decode(u[start..end]), covering)];
    }
    assert SegmentsBetween(u, entities, cuts, segments);
  }

  // --------------------------------------------------------------------------
  // The segments' texts are the text, whatever the entities

  lemma BoundaryAligned(u: seq<Unit>, entities: seq<Entity>, b: nat)
    requires WellFormed(u) && IsBoundary(u, entities, b)
    ensures b <= |u| && Aligned(u, b)
  {
  }

  function ConcatTexts(segments: seq<Segment>): Text {
    if segments == [] then [] else segments[0].text + ConcatTexts(segments[1..])
  }

  lemma {:induction false} ConcatFrom(u: seq<Unit>, entities: seq<Entity>, bounds: seq<nat>, segments: seq<Segment>,
                                      k: nat)
    requires u != [] && WellFormed(u) && SegmentsBetween(u, entities, bounds, segments) && k < |bounds|
    ensures bounds[k] <= |u| && ConcatTexts(segments[k..]) == Decode(u[bounds[k]..])
    decreases |bounds| - k
  {
    hide Aligned, WellFormed, IsBoundary, Decode;
    BoundsInText(u, entities, bounds);
    if k + 1 < |bounds| {
      assert IsSegment(u, entities, bounds, k, segments[k]);
      assert bounds[k] in bounds && bounds[k + 1] in bounds;
      BoundaryAligned(u, entities, bounds[k + 1]);
      ConcatFrom(u, entities, bounds, segments, k + 1);
      var tail, cut := u[bounds[k]..], bounds[k + 1] - bounds[k];
      assert segments[k..][1..] == segments[k + 1..];
      assert tail[..cut] == u[bounds[k]..bounds[k + 1]] && tail[cut..] == u[bounds[k + 1]..];
      AlignedInTail(u, bounds[k], bounds[k + 1]);
      DecodeSplit(tail, cut);
    } else {
      assert u[bounds[k]..] == [] && segments[k..] == [];
      DecodeNothing();
    }
  }

  lemma DecodeNothing()
    ensures Decode([]) == []
  {
  }

  lemma AlignedInTail(u: seq<Unit>, from: nat, b: nat)
    requires from <= b <= |u| && Aligned(u, b)
    ensures Aligned(u[from..], b - from)
  {
  }

  /** Negative, out-of-range and mid-pair entities included: the segments' texts concatenate to the text. */
  lemma SegmentsConcatenate(text: Text, entities: seq<Entity>, bounds: seq<nat>, segments: seq<Segment>)
    requires SegmentsBetween(Encode(text), entities, bounds, segments)
    ensures ConcatTexts(segments) == text
  {
    var u := Encode(text);
    DecodeEncode(text);
    if u != [] {
      EncodeWellFormed(text);
      BoundsInText(u, entities, bounds);
      ConcatFrom(u, entities, bounds, segments, 0);
      assert segments[0..] == segments && u[0..] == u;
    }
  }

  // --------------------------------------------------------------------------
  // A segment's entities are exactly those that cover any of its positions

  lemma SnapKeepsAligned(u: seq<Unit>, b: nat)
    requires b <= |u| && WellFormed(u) && Aligned(u, b)
    ensures SnapOutOfSurrogate(u, b) == b
  {
  }

  /** The two ends of a pair-aligned entity that covers something in the text are boundaries themselves. */
  lemma EndsAreBoundaries(u: seq<Unit>, entities: seq<Entity>, e: Entity, i: nat)
    requires WellFormed(u) && PairAligned(u, entities) && e in entities && e.Covers(i) && i < |u|
    ensures IsBoundary(u, entities, Clamp(e.offset, |u|)) && IsBoundary(u, entities, Clamp(e.End(), |u|))
  {
    hide Aligned, WellFormed;
    var k :| 0 <= k < |entities| && entities[k] == e;
    if 0 < e.offset {
      SnapKeepsAligned(u, e.offset);
    }
    if e.End() <= |u| {
      SnapKeepsAligned(u, e.End());
    }
    assert 0 < e.offset ==> e.offset in BoundsOf(u, entities[k]);
    assert e.End() <= |u| ==> e.End() in BoundsOf(u, entities[k]);
  }

  lemma NoBoundaryBetween(bounds: seq<nat>, k: nat, b: nat)
    requires Ascending(bounds) && k + 1 < |bounds| && b in bounds
    ensures b <= bounds[k] || bounds[k + 1] <= b
  {
    var j :| 0 <= j < |bounds| && bounds[j] == b;
  }

  /** For pair-aligned entities: covering one position of a segment is the same as covering all of it. */
  lemma CoversAllOrNothing(u: seq<Unit>, entities: seq<Entity>, bounds: seq<nat>, k: nat, e: Entity, i: nat)
    requires WellFormed(u) && PairAligned(u, entities) && ListsBoundaries(u, entities, bounds) && e in entities
    requires u != [] && k + 1 < |bounds| && bounds[k] <= i < bounds[k + 1]
    ensures e.Covers(i) <==> e.offset <= bounds[k] && bounds[k + 1] <= e.End()
  {
    if e.Covers(i) {
      BoundsInText(u, entities, bounds);
      EndsAreBoundaries(u, entities, e, i);
      NoBoundaryBetween(bounds, k, Clamp(e.offset, |u|));
      NoBoundaryBetween(bounds, k, Clamp(e.End(), |u|));
    }
  }

  function StylesOf(entities: seq<Entity>): seq<Style> {
    if entities == [] then [] else StylesOf(entities[..|entities| - 1]) + [entities[|entities| - 1].style]
  }

  lemma {:induction false} CoveringStyles(entities: seq<Entity>, start: int, end: int, i: int)
    requires forall e | e in entities :: e.Covers(i) <==> e.offset <= start && end <= e.End()
    ensures StylesOf(Covering(entities, start, end)) == StylesAt(entities, i)
  {
    if entities != [] {
      var before, e := entities[..|entities| - 1], entities[|entities| - 1];
      CoveringStyles(before, start, end, i);
      var c := Covering(before, start, end);
      assert (c + [e])[..|c|] == c;
      assert c + [] == c;
    }
  }

  /** Of the entities, exactly the listed ones cover i. */
  predicate ListsCovering(listed: seq<Entity>, entities: seq<Entity>, i: int) {
    forall e | e in entities :: e.Covers(i) <==> e in listed
  }

  /**
   For pair-aligned entities, every position of segment k has exactly the styles of the segment's own entities, in
   order: an entity is listed if it covers a position of the segment, and otherwise touches none.
   */
  lemma {:induction false} SegmentListsItsStyles(text: Text, entities: seq<Entity>, bounds: seq<nat>, segments: seq<Segment>,
                                                 k: nat, i: nat)
    requires SegmentsBetween(Encode(text), entities, bounds, segments) && PairAligned(Encode(text), entities)
    requires k < |segments| && k + 1 < |bounds| && bounds[k] <= i < bounds[k + 1]
    ensures StylesOf(segments[k].entities) == StylesAt(entities, i)
    ensures ListsCovering(segments[k].entities, entities, i)
  {
    var u := Encode(text);
    assert IsSegment(u, entities, bounds, k, segments[k]);
    EncodeWellFormed(text);
    forall e | e in entities
      ensures e.Covers(i) <==> e.offset <= bounds[k] && bounds[k + 1] <= e.End()
    {
      CoversAllOrNothing(u, entities, bounds, k, e, i);
    }
    CoveringStyles(entities, bounds[k], bounds[k + 1], i);
    forall e | e in entities
      ensures e in segments[k].entities <==> e.offset <= bounds[k] && bounds[k + 1] <= e.End()
    {
      InCovering(entities, bounds[k], bounds[k + 1], e);
    }
  }

  lemma {:induction false} InCovering(entities: seq<Entity>, start: int, end: int, e: Entity)
    ensures e in Covering(entities, start, end) <==> e in entities && e.offset <= start && end <= e.End()
  {
    if entities != [] {
      var before, last := entities[..|entities| - 1], entities[|entities| - 1];
      InCovering(before, start, end, e);
      assert entities == before + [last];
    }
  }

  // --------------------------------------------------------------------------
  // Which segments list an entity, whatever its ends

  /** What the boundaries leave of an entity: its range clipped, and each end moved out of a pair. */
  function SnappedRange(u: seq<Unit>, e: Entity): (nat, nat) {
    var (s, t) := Clamped(e.offset, e.End(), |u|);
    (SnapOutOfSurrogate(u, s), SnapOutOfSurrogate(u, t))
  }

  /** The entity begins, once clipped, between the two units of a pair. */
  predicate BeginsInPair(u: seq<Unit>, e: Entity) {
    var start := Clamped(e.offset, e.End(), |u|).0;
    0 < start < |u| && IsHighSurrogate(u[start - 1])
  }

  predicate IsWithin(bounds: seq<nat>, k: nat, range: (nat, nat)) {
    k + 1 < |bounds| && range.0 <= bounds[k] && bounds[k + 1] <= range.1
  }

  lemma CoversExactly(u: seq<Unit>, e: Entity, a: nat, b: nat)
    requires WellFormed(u) && a < b <= |u| && Aligned(u, b)
    ensures var range := SnappedRange(u, e);
            e.offset <= a && b <= e.End()
            <==> range.0 <= a && b <= range.1 && !(a == range.0 && BeginsInPair(u, e))
  {
    var t := Clamped(e.offset, e.End(), |u|).1;
    assert b <= t <==> b <= SnapOutOfSurrogate(u, t);
    hide WellFormed, Aligned;
  }

  /**
   For any entities: a segment lists an entity exactly when the segment lies in the entity's snapped range, unless it
   begins with a pair that the entity holds only half of.
   */
  lemma ListedExactly(text: Text, entities: seq<Entity>, bounds: seq<nat>, segments: seq<Segment>, k: nat, e: Entity)
    requires SegmentsBetween(Encode(text), entities, bounds, segments) && k < |segments| && e in entities
    ensures k + 1 < |bounds|
    ensures var u := Encode(text);
            e in segments[k].entities
            <==> IsWithin(bounds, k, SnappedRange(u, e))
                 && !(bounds[k] == SnappedRange(u, e).0 && BeginsInPair(u, e))
  {
    var u := Encode(text);
    assert IsSegment(u, entities, bounds, k, segments[k]);
    EncodeWellFormed(text);
    assert bounds[k + 1] in bounds;
    BoundaryAligned(u, entities, bounds[k + 1]);
    hide SegmentsBetween, WellFormed, Aligned, Encode, SnappedRange, BeginsInPair, Decode;
    InCovering(entities, bounds[k], bounds[k + 1], e);
    CoversExactly(u, e, bounds[k], bounds[k + 1]);
  }

  /** e is listed by every segment in its snapped range. */
  predicate IsListedThroughout(u: seq<Unit>, bounds: seq<nat>, segments: seq<Segment>, e: Entity) {
    forall k | 0 <= k < |segments| && IsWithin(bounds, k, SnappedRange(u, e)) :: e in segments[k].entities
  }

  /** An entity is listed over its whole snapped range exactly when that is empty or it does not begin inside a pair. */
  lemma ListedThroughoutExactly(text: Text, entities: seq<Entity>, bounds: seq<nat>, segments: seq<Segment>, e: Entity)
    requires SegmentsBetween(Encode(text), entities, bounds, segments) && e in entities
    ensures var u := Encode(text);
            IsListedThroughout(u, bounds, segments, e)
            <==> SnappedRange(u, e).0 == SnappedRange(u, e).1 || !BeginsInPair(u, e)
  {
    var u := Encode(text);
    var range := SnappedRange(u, e);
    if u != [] {
      forall k | 0 <= k < |segments|
        ensures e in segments[k].entities
                <==> IsWithin(bounds, k, range) && !(bounds[k] == range.0 && BeginsInPair(u, e))
      {
        ListedExactly(text, entities, bounds, segments, k, e);
      }
      if range.0 != range.1 {
        var first := FirstSegmentOf(u, entities, bounds, e);
        assert IsWithin(bounds, first, range);
      }
    }
  }

  /** A segment begins where a snapped range does, and ends no later. */
  lemma FirstSegmentOf(u: seq<Unit>, entities: seq<Entity>, bounds: seq<nat>, e: Entity) returns (k: nat)
    requires u != [] && ListsBoundaries(u, entities, bounds) && e in entities
    requires SnappedRange(u, e).0 != SnappedRange(u, e).1
    ensures k + 1 < |bounds| && bounds[k] == SnappedRange(u, e).0 && IsWithin(bounds, k, SnappedRange(u, e))
  {
    var range := SnappedRange(u, e);
    var j :| 0 <= j < |entities| && entities[j] == e;
    assert range.0 in BoundsOf(u, entities[j]) && range.1 in BoundsOf(u, entities[j]);
    assert range.0 in bounds && range.1 in bounds;
    k :| 0 <= k < |bounds| && bounds[k] == range.0;
    var l :| 0 <= l < |bounds| && bounds[l] == range.1;
    assert range.0 < range.1;
  }

  lemma HalfAPair(style: Style)
    ensures Encode([0x1F600, 0x61]) == [0xD83D, 0xDE00, 0x61]
    ensures forall b: nat :: IsBoundary([0xD83D, 0xDE00, 0x61], [Entity(style, 1, 2)], b) <==> b == 0 || b == 3
  {
    assert [0x1F600, 0x61][1..] == [0x61] && [0x61][1..] == [];
    assert Encode([0x61]) == [0x61] + [];
    var u: seq<Unit>, e := [0xD83D, 0xDE00, 0x61], Entity(style, 1, 2);
    assert BoundsOf(u, e) == {0, 3};
    assert [e][0] == e;
  }

  /** The character U+1F600, two units, then "a"; the entity holds the second unit and the "a". No segment lists it. */
  lemma EntityFromHalfAPairIsUnlisted(style: Style, bounds: seq<nat>, segments: seq<Segment>)
    requires SegmentsBetween(Encode([0x1F600, 0x61]), [Entity(style, 1, 2)], bounds, segments)
    ensures bounds == [0, 3] && segments == [Segment([0x1F600, 0x61], [])]
  {
    var text: Text, u: seq<Unit>, e := [0x1F600, 0x61], [0xD83D, 0xDE00, 0x61], Entity(style, 1, 2);
    HalfAPair(style);
    DecodeEncode(text);
    hide Encode, Decode, IsBoundary;
    BoundsInText(u, [e], bounds);
    assert bounds[1] in bounds;
    assert bounds[0] == 0 && bounds[1] == 3 == bounds[|bounds| - 1];
    assert IsSegment(u, [e], bounds, 0, segments[0]);
    assert u[0..3] == u;
    assert [e][..0] == [];
    assert Covering([e], 0, 3) == Covering([], 0, 3);
  }

  // --------------------------------------------------------------------------
  // Segmenting keeps the meaning, so it reverses rendering

  function SegmentMeaning(s: Segment): seq<StyledUnit> {
    seq(|Encode(s.text)|, i requires 0 <= i < |Encode(s.text)| => StyledUnit(Encode(s.text)[i], StylesOf(s.entities)))
  }

  function SegmentsMeaning(segments: seq<Segment>): seq<StyledUnit> {
    if segments == [] then [] else SegmentMeaning(segments[0]) + SegmentsMeaning(segments[1..])
  }

  lemma SegmentUnits(text: Text, entities: seq<Entity>, bounds: seq<nat>, segments: seq<Segment>, k: nat)
    requires SegmentsBetween(Encode(text), entities, bounds, segments)
    requires k < |segments| && k + 1 < |bounds|
    ensures bounds[k] <= bounds[k + 1] <= |Encode(text)|
    ensures Encode(segments[k].text) == Encode(text)[bounds[k]..bounds[k + 1]]
  {
    hide Covering, Decode, Encode, Aligned;
    var u := Encode(text);
    assert IsSegment(u, entities, bounds, k, segments[k]);
    assert bounds[k] in bounds && bounds[k + 1] in bounds;
    EncodeWellFormed(text);
    BoundaryAligned(u, entities, bounds[k]);
    BoundaryAligned(u, entities, bounds[k + 1]);
    SliceIsText(text, bounds[k], bounds[k + 1]);
  }

  lemma OneSegmentMeaning(text: Text, entities: seq<Entity>, bounds: seq<nat>, segments: seq<Segment>, k: nat)
    requires SegmentsBetween(Encode(text), entities, bounds, segments) && PairAligned(Encode(text), entities)
    requires k < |segments| && k + 1 < |bounds|
    ensures bounds[k] <= bounds[k + 1] <= |Encode(text)|
    ensures SegmentMeaning(segments[k]) == Styled(Encode(text), entities)[bounds[k]..bounds[k + 1]]
  {
    hide StylesOf, StylesAt, Encode, PairAligned, SegmentsBetween;
    SegmentUnits(text, entities, bounds, segments, k);
    forall i | bounds[k] <= i < bounds[k + 1]
      ensures StylesOf(segments[k].entities) == StylesAt(entities, i)
    {
      SegmentListsItsStyles(text, entities, bounds, segments, k, i);
    }
  }

  lemma {:induction false} MeaningFrom(text: Text, entities: seq<Entity>, bounds: seq<nat>, segments: seq<Segment>,
                                       k: nat)
    requires SegmentsBetween(Encode(text), entities, bounds, segments) && PairAligned(Encode(text), entities)
    requires text != [] && Encode(text) != [] && k < |bounds|
    ensures bounds[k] <= |Encode(text)|
    ensures SegmentsMeaning(segments[k..]) == Styled(Encode(text), entities)[bounds[k]..]
    decreases |bounds| - k
  {
    hide Encode, Styled, SegmentMeaning, PairAligned;
    var u := Encode(text);
    BoundsInText(u, entities, bounds);
    var all := Styled(u, entities);
    StyledLength(u, entities);
    if k + 1 < |bounds| {
      OneSegmentMeaning(text, entities, bounds, segments, k);
      MeaningFrom(text, entities, bounds, segments, k + 1);
      assert segments[k..][1..] == segments[k + 1..];
      assert all[bounds[k]..] == all[bounds[k]..bounds[k + 1]] + all[bounds[k + 1]..];
    } else {
      assert segments[k..] == [] && all[bounds[k]..] == [];
    }
  }

  lemma StyledLength(u: seq<Unit>, entities: seq<Entity>)
    ensures |Styled(u, entities)| == |u|
  {
  }

  /** For pair-aligned entities the segments in order denote the formatted text. */
  lemma SegmentsKeepMeaning(text: Text, entities: seq<Entity>, bounds: seq<nat>, segments: seq<Segment>)
    requires SegmentsBetween(Encode(text), entities, bounds, segments) && PairAligned(Encode(text), entities)
    ensures SegmentsMeaning(segments) == Styled(Encode(text), entities)
  {
    if Encode(text) != [] {
      BoundsInText(Encode(text), entities, bounds);
      MeaningFrom(text, entities, bounds, segments, 0);
      assert segments[0..] == segments;
    }
  }

  /** Segmenting what a tree renders to gives back the tree's meaning, for every tree. */
  lemma SegmentsReverseRender(n: Node, bounds: seq<nat>, segments: seq<Segment>)
    requires SegmentsBetween(Encode(PlainText(n)), EntitiesAt(n, 0), bounds, segments)
    ensures SegmentsMeaning(segments) == Meaning(n, [])
  {
    RenderIsPairAligned(n);
    RenderKeepsMeaning(n);
    SegmentsKeepMeaning(PlainText(n), EntitiesAt(n, 0), bounds, segments);
  }
}
