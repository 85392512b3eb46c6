/**
 Splitting a long text with its formatting entities into sendable chunks (format.go).

 Both halves of the search for a split point turn out to be of one kind: LastBreak returns the greatest break
 point, and EntityStartBefore the greatest point free of avoidable entities, not after where it starts. Their
 alternation therefore ends at the greatest point of the window that is both.
 */
module Format {
  import opened Options
  import opened Utf16
  import opened Entities

  const MAX_TEXT_LENGTH := 4096

  const NEWLINE: Unit := 10
  const SPACE: Unit := 32

  predicate IsSplitSpace(c: Unit) {
    c == SPACE || c == NEWLINE || c == 13 || c == 9
  }

  datatype TextChunk = TextChunk(text: Text, entities: seq<Entity>)

  /** The units of a chunk: from start up to end. */
  datatype Range = Range(start: nat, end: nat)

  // --------------------------------------------------------------------------
  // Where a chunk may end

  /** An entity that starts inside the chunk and fits the limit: it can move to the next chunk as a whole. */
  predicate Avoidable(e: Entity, start: nat, limit: int) {
    e.offset > start && e.length <= limit
  }

  predicate Free(entities: seq<Entity>, start: nat, limit: int, q: int) {
    forall e | e in entities :: Avoidable(e, start, limit) ==> !e.Crosses(q)
  }

  predicate Without(u: seq<Unit>, start: nat, p: nat, c: Unit)
    requires p <= |u|
  {
    forall i | start <= i < p :: u[i] != c
  }

  /** p is just after a newline; or, with no newline since start, just after a space or with no space either. */
  predicate BreakPoint(u: seq<Unit>, start: nat, p: nat)
    requires start < p <= |u|
  {
    || u[p - 1] == NEWLINE
    || (Without(u, start, p, NEWLINE) && (u[p - 1] == SPACE || Without(u, start, p, SPACE)))
  }

  predicate Good(u: seq<Unit>, entities: seq<Entity>, start: nat, limit: int, q: int) {
    start < q <= |u| && BreakPoint(u, start, q) && Free(entities, start, limit, q)
  }

  /** The last good point in (start, p]; start + 1 is always one. */
  function GreatestGood(u: seq<Unit>, entities: seq<Entity>, start: nat, limit: int, p: nat): (q: nat)
    requires start < p <= |u|
    ensures start < q <= p
    decreases p
  {
    if p == start + 1 || Good(u, entities, start, limit, p) then p
    else GreatestGood(u, entities, start, limit, p - 1)
  }

  lemma {:induction false} GreatestGoodIsGreatest(
    u: seq<Unit>, entities: seq<Entity>, start: nat, limit: int, p: nat)
    requires start < p <= |u|
    ensures Good(u, entities, start, limit, GreatestGood(u, entities, start, limit, p))
    ensures forall x :: GreatestGood(u, entities, start, limit, p) < x <= p ==> !Good(u, entities, start, limit, x)
    decreases p
  {
    if p != start + 1 && !Good(u, entities, start, limit, p) {
      GreatestGoodIsGreatest(u, entities, start, limit, p - 1);
    }
  }

  /** The edge of the window: limit units, one less or one more rather than half a pair. */
  function WindowEdge(u: seq<Unit>, start: nat, limit: int): (w: nat)
    requires limit > 0 && start + limit < |u|
    ensures start < w <= |u|
  {
    var w := start + limit;
    if !IsHighSurrogate(u[w - 1]) then w
    else if w - 1 == start then start + 2
    else w - 1
  }

  /** Where the chunk starting at start ends: the greatest good point of its window. */
  function SplitAt(u: seq<Unit>, entities: seq<Entity>, start: nat, limit: int): (q: nat)
    requires limit > 0 && start < |u|
    ensures start < q <= |u|
  {
    if start + limit >= |u| then |u|
    else GreatestGood(u, entities, start, limit, WindowEdge(u, start, limit))
  }

  method LastBreak(u: seq<Unit>, start: nat, p: nat) returns (q: nat)
    requires start < p <= |u|
    ensures start < q <= p && BreakPoint(u, start, q)
    ensures forall x :: q < x <= p ==> !BreakPoint(u, start, x)
  {
    var lastSpace := -1;
    var i := p;
    while i > start
      invariant start <= i <= p
      invariant Without(u, i, p, NEWLINE)
      invariant lastSpace == -1 ==> Without(u, i, p, SPACE)
      invariant lastSpace != -1 ==> i < lastSpace <= p && u[lastSpace - 1] == SPACE && Without(u, lastSpace, p, SPACE)
    {
      if u[i - 1] == NEWLINE {
        return i;
      } else if u[i - 1] == SPACE && lastSpace == -1 {
        lastSpace := i;
      }
      i := i - 1;
    }
    if lastSpace != -1 {
      return lastSpace;
    }
    return p;
  }

  method EntityStartBefore(entities: seq<Entity>, start: nat, p: nat, limit: int) returns (q: nat)
    requires start < p
    ensures start < q <= p && Free(entities, start, limit, q)
    ensures forall x :: q < x <= p ==> !Free(entities, start, limit, x)
  {
    q := p;
    while true
      invariant start < q <= p
      invariant forall x :: q < x <= p ==> !Free(entities, start, limit, x)
      decreases q
    {
      var moved := false;
      ghost var before := q;
      for k := 0 to |entities|
        invariant start < q <= before && (moved <==> q < before)
        invariant !moved ==> forall j | 0 <= j < k :: Avoidable(entities[j], start, limit) ==> !entities[j].Crosses(q)
        invariant forall x :: q < x <= p ==> !Free(entities, start, limit, x)
      {
        var e := entities[k];
        if e.offset < q < e.End() && e.offset > start && e.length <= limit {
          assert e in entities;
          q := e.offset;
          moved := true;
        }
      }
      if !moved {
        return;
      }
    }
  }

  method SplitPoint(u: seq<Unit>, entities: seq<Entity>, start: nat, limit: int) returns (q: nat)
    requires limit > 0 && start < |u|
    ensures q == SplitAt(u, entities, start, limit)
  {
    var w := start + limit;
    if w >= |u| {
      return |u|;
    }
    if IsHighSurrogate(u[w - 1]) {
      w := w - 1;
      if w == start {
        w := start + 2;
      }
    }
    var p := w;
    while true
      invariant start < p <= w
      invariant forall x :: p < x <= w ==> !Good(u, entities, start, limit, x)
      decreases p
    {
      q := LastBreak(u, start, p);
      q := EntityStartBefore(entities, start, q, limit);
      if q <= start {
        assert false;  // the source's fallback to w is unreachable
      }
      if q == p {
        assert Good(u, entities, start, limit, q);
        assert w == WindowEdge(u, start, limit);
        GreatestGoodIsGreatest(u, entities, start, limit, w);
        return;
      }
      p := q;
    }
  }

  // --------------------------------------------------------------------------
  // Clipping

  function ClipOne(e: Entity, start: int, end: int): seq<Entity> {
    var off := if e.offset > start then e.offset else start;
    var stop := if e.End() < end then e.End() else end;
    if off >= stop then [] else [e.(offset := off - start, length := stop - off)]
  }

  function Clip(entities: seq<Entity>, start: int, end: int): seq<Entity> {
    if entities == [] then []
    else Clip(entities[..|entities| - 1], start, end) + ClipOne(entities[|entities| - 1], start, end)
  }

  method ClipEntities(entities: seq<Entity>, start: int, end: int) returns (out: seq<Entity>)
    ensures out == Clip(entities, start, end)
  {
    out := [];
    for k := 0 to |entities|
      invariant out == Clip(entities[..k], start, end)
    {
      assert entities[..k + 1][..k] == entities[..k];
      var e := entities[k];
      var off := if e.offset > start then e.offset else start;
      var stop := if e.End() < end then e.End() else end;
      if off >= stop {
        continue;
      }
      var c := e;
      c := c.(offset := off - start);
      c := c.(length := stop - off);
      out := out + [c];
    }
    assert entities[..|entities|] == entities;
  }

  /** An entity that overlaps [start, end) is cut to it and re-based; one that does not is left out. */
  lemma ClipOneExactly(e: Entity, start: int, end: int)
    ensures Clip([e], start, end) ==
            if e.offset < end && start < e.End() && e.length > 0 && start < end
            then [Entity(e.style, if e.offset < start then 0 else e.offset - start,
                         (if e.End() < end then e.End() else end) - (if e.offset < start then start else e.offset))]
            else []
  {
    assert [e][..0] == [];
    assert Clip([e], start, end) == Clip([], start, end) + ClipOne(e, start, end);
  }

  /** Every entity is clipped for itself, in order. */
  lemma {:induction false} ClipAppend(s: seq<Entity>, t: seq<Entity>, start: int, end: int)
    ensures Clip(s + t, start, end) == Clip(s, start, end) + Clip(t, start, end)
  {
    if t == [] {
      assert s + t == s;
    } else {
      assert (s + t)[..|s + t| - 1] == s + t[..|t| - 1];
      ClipAppend(s, t[..|t| - 1], start, end);
    }
  }

  lemma ClipOneKeepsStyles(e: Entity, start: int, end: int, i: int)
    requires start <= i < end
    ensures StylesAt(ClipOne(e, start, end), i - start) == if e.Covers(i) then [e.style] else []
  {
    var clipped := ClipOne(e, start, end);
    if clipped != [] {
      assert clipped[..0] == [];
    }
  }

  /** Clipping keeps the styles of every unit of the chunk: same styles, same order. */
  lemma {:induction false} ClipKeepsStyles(entities: seq<Entity>, start: int, end: int, i: int)
    requires start <= i < end
    ensures StylesAt(Clip(entities, start, end), i - start) == StylesAt(entities, i)
  {
    if entities != [] {
      var before := entities[..|entities| - 1];
      var last := entities[|entities| - 1];
      ClipKeepsStyles(before, start, end, i);
      ClipOneKeepsStyles(last, start, end, i);
      StylesAtAppend(Clip(before, start, end), ClipOne(last, start, end), i - start);
    }
  }

  /** The formatted text of a chunk is the chunk's part of the formatted text. */
  lemma ClipKeepsMeaning(u: seq<Unit>, entities: seq<Entity>, start: nat, end: nat)
    requires start <= end <= |u|
    ensures Styled(u[start..end], Clip(entities, start, end)) == Styled(u, entities)[start..end]
  {
    forall i | start <= i < end
      ensures StylesAt(Clip(entities, start, end), i - start) == StylesAt(entities, i)
    {
      ClipKeepsStyles(entities, start, end, i);
    }
    assert forall k :: 0 <= k < end - start ==>
      Styled(u[start..end], Clip(entities, start, end))[k] == Styled(u, entities)[start + k];
  }

  // --------------------------------------------------------------------------
  // Splitting

  function TrimBack(u: seq<Unit>, start: nat, end: nat): (cut: nat)
    requires start <= end <= |u|
    ensures start <= cut <= end
  {
    if end > start && IsSplitSpace(u[end - 1]) then TrimBack(u, start, end - 1) else end
  }

  function SkipSpaces(u: seq<Unit>, i: nat): (j: nat)
    requires i <= |u|
    ensures i <= j <= |u|
    decreases |u| - i
  {
    if i < |u| && IsSplitSpace(u[i]) then SkipSpaces(u, i + 1) else i
  }

  /** The chunk that starts at start, unless it is all whitespace. */
  function RangeAt(u: seq<Unit>, entities: seq<Entity>, start: nat, limit: int): seq<Range>
    requires limit > 0 && start < |u|
  {
    var cut := TrimBack(u, start, SplitAt(u, entities, start, limit));
    if cut > start then [Range(start, cut)] else []
  }

  /** Every chunk from start on. */
  function Ranges(u: seq<Unit>, entities: seq<Entity>, start: nat, limit: int): seq<Range>
    requires limit > 0 && start <= |u|
    decreases |u| - start
  {
    if start == |u| then []
    else
      RangeAt(u, entities, start, limit)
      + Ranges(u, entities, SkipSpaces(u, SplitAt(u, entities, start, limit)), limit)
  }

  function ChunkOf(u: seq<Unit>, entities: seq<Entity>, r: Range): TextChunk
    requires r.start <= r.end <= |u|
  {
    TextChunk(Decode(u[r.start..r.end]), Clip(entities, r.start, r.end))
  }

  /** The chunk that starts at start, as sent: no chunk or one. */
  function ChunkAt(u: seq<Unit>, entities: seq<Entity>, start: nat, limit: int): seq<TextChunk>
    requires limit > 0 && start < |u|
  {
    var here := RangeAt(u, entities, start, limit);
    if here == [] then [] else [ChunkOf(u, entities, here[0])]
  }

  function Chunks(u: seq<Unit>, entities: seq<Entity>, start: nat, limit: int): seq<TextChunk>
    requires limit > 0 && start <= |u|
    decreases |u| - start
  {
    if start == |u| then []
    else
      ChunkAt(u, entities, start, limit)
      + Chunks(u, entities, SkipSpaces(u, SplitAt(u, entities, start, limit)), limit)
  }

  function LimitOf(limit: Option<int>): (max: int)
    ensures max > 0
  {
    if limit.Some? && limit.value > 0 then limit.value else MAX_TEXT_LENGTH
  }

  lemma {:induction false} ChunksFollowRanges(u: seq<Unit>, entities: seq<Entity>, start: nat, limit: int)
    requires limit > 0 && start <= |u|
    ensures |Chunks(u, entities, start, limit)| == |Ranges(u, entities, start, limit)|
    ensures forall k :: 0 <= k < |Ranges(u, entities, start, limit)| ==>
      var r := Ranges(u, entities, start, limit)[k];
      start <= r.start < r.end <= |u| && Chunks(u, entities, start, limit)[k] == ChunkOf(u, entities, r)
    decreases |u| - start
  {
    hide SplitAt, SkipSpaces, TrimBack, Clip, Decode;
    if start < |u| {
      ChunksFollowRanges(u, entities, SkipSpaces(u, SplitAt(u, entities, start, limit)), limit);
    }
  }

  // --------------------------------------------------------------------------
  // What a caller gets for a limit

  predicate IsBlank(c: int) {
    c == 9 || c == 10 || c == 13 || c == 32
  }

  /** Every chunk is non-empty and has at most n units, or the two of a single character when n is 1. */
  predicate AllFit(chunks: seq<TextChunk>, n: int) {
    forall c | c in chunks :: 0 < |Encode(c.text)| <= if n == 1 then 2 else n
  }

  predicate EndsInText(text: Text) {
    text != [] && !IsBlank(text[|text| - 1])
  }

  /** No chunk ends in whitespace, and only the first can begin with some. */
  predicate AllTrimmed(chunks: seq<TextChunk>) {
    && (forall k | 0 <= k < |chunks| :: EndsInText(chunks[k].text))
    && (forall k | 0 < k < |chunks| :: !IsBlank(chunks[k].text[0]))
  }

  lemma {:induction false} RangesFit(u: seq<Unit>, entities: seq<Entity>, start: nat, limit: int)
    requires limit > 0 && start <= |u|
    ensures forall r | r in Ranges(u, entities, start, limit) ::
      r.start < r.end && r.end - r.start <= if limit == 1 then 2 else limit
    decreases |u| - start
  {
    if start < |u| {
      var next := SkipSpaces(u, SplitAt(u, entities, start, limit));
      RangesFit(u, entities, next, limit);
      assert SplitAt(u, entities, start, limit) <= start + if limit == 1 then 2 else limit;
    }
  }

  /** This needs nothing of the entities: a chunk re-encodes to as many units as it was cut from. */
  lemma ChunksFit(u: seq<Unit>, entities: seq<Entity>, limit: int)
    requires limit > 0
    ensures AllFit(Chunks(u, entities, 0, limit), limit)
  {
    hide Chunks, Ranges, Encode, Decode, Clip;
    RangesFit(u, entities, 0, limit);
    ChunksFollowRanges(u, entities, 0, limit);
    forall c | c in Chunks(u, entities, 0, limit)
      ensures 0 < |Encode(c.text)| <= if limit == 1 then 2 else limit
    {
      var k :| 0 <= k < |Chunks(u, entities, 0, limit)| && Chunks(u, entities, 0, limit)[k] == c;
      var r := Ranges(u, entities, 0, limit)[k];
      EncodeDecodeLength(u[r.start..r.end]);
    }
  }

  lemma {:induction false} DecodeEnds(u: seq<Unit>)
    requires u != []
    ensures Decode(u) != []
    ensures IsBlank(Decode(u)[0]) ==> IsSplitSpace(u[0])
    ensures IsBlank(Decode(u)[|Decode(u)| - 1]) <==> IsSplitSpace(u[|u| - 1])
  {
    var step := if StartsWithPair(u) then 2 else 1;
    if u[step..] != [] {
      DecodeEnds(u[step..]);
      assert Decode(u)[1..] == Decode(u[step..]);
    }
  }

  lemma {:induction false} TrimBackEnds(u: seq<Unit>, start: nat, end: nat)
    requires start <= end <= |u|
    ensures var cut := TrimBack(u, start, end); cut > start ==> !IsSplitSpace(u[cut - 1])
  {
    if end > start && IsSplitSpace(u[end - 1]) {
      TrimBackEnds(u, start, end - 1);
    }
  }

  lemma {:induction false} SkipSpacesEnds(u: seq<Unit>, i: nat)
    requires i <= |u|
    ensures SkipSpaces(u, i) < |u| ==> !IsSplitSpace(u[SkipSpaces(u, i)])
    decreases |u| - i
  {
    if i < |u| && IsSplitSpace(u[i]) {
      SkipSpacesEnds(u, i + 1);
    }
  }

  /** A range ends in no split whitespace, and begins with some only if it is the first and the text does. */
  lemma {:induction false} RangesAreTrimmed(u: seq<Unit>, entities: seq<Entity>, start: nat, limit: int)
    requires limit > 0 && start <= |u|
    ensures forall r | r in Ranges(u, entities, start, limit) ::
      r.start < r.end <= |u| && !IsSplitSpace(u[r.end - 1]) && (r.start == start || !IsSplitSpace(u[r.start]))
    decreases |u| - start
  {
    if start < |u| {
      var end := SplitAt(u, entities, start, limit);
      TrimBackEnds(u, start, end);
      SkipSpacesEnds(u, end);
      RangesAreTrimmed(u, entities, SkipSpaces(u, end), limit);
    }
  }

  lemma ChunksAreTrimmed(u: seq<Unit>, entities: seq<Entity>, limit: int)
    requires limit > 0
    ensures AllTrimmed(Chunks(u, entities, 0, limit))
  {
    hide Chunks, Ranges, Decode, Clip, IsBlank, IsSplitSpace;
    RangesAreTrimmed(u, entities, 0, limit);
    ChunksFollowRanges(u, entities, 0, limit);
    RangesAscend(u, entities, 0, limit);
    forall k | 0 <= k < |Chunks(u, entities, 0, limit)|
      ensures var text := Chunks(u, entities, 0, limit)[k].text; EndsInText(text) && (k > 0 ==> !IsBlank(text[0]))
    {
      var r := Ranges(u, entities, 0, limit)[k];
      assert r in Ranges(u, entities, 0, limit);
      DecodeEnds(u[r.start..r.end]);
    }
  }

  lemma {:induction false} RangesAscend(u: seq<Unit>, entities: seq<Entity>, start: nat, limit: int)
    requires limit > 0 && start <= |u|
    ensures forall k | 0 < k < |Ranges(u, entities, start, limit)| :: Ranges(u, entities, start, limit)[k].start > start
  {
    if start < |u| {
      ChunksFollowRanges(u, entities, SkipSpaces(u, SplitAt(u, entities, start, limit)), limit);
    }
  }

  /** A text within the limit that does not end in whitespace stays as it is. */
  lemma OneChunk(text: Text, entities: seq<Entity>, limit: int)
    requires EndsInText(text) && |Encode(text)| <= limit
    ensures Chunks(Encode(text), entities, 0, limit) == [TextChunk(text, Clip(entities, 0, |Encode(text)|))]
  {
    var u := Encode(text);
    DecodeEncode(text);
    DecodeEnds(u);
    assert TrimBack(u, 0, |u|) == |u| && SkipSpaces(u, |u|) == |u|;
    assert u[0..|u|] == u;
    hide Encode, Decode, Clip;
    assert Chunks(u, entities, |u|, limit) == [];
  }

  /**
   Where a window ends: with the text, if it has at most limit units left; otherwise at its last good point, which is
   never more than limit units away unless a character of two units meets a limit of 1.
   */
  lemma SplitAtExactly(u: seq<Unit>, entities: seq<Entity>, start: nat, limit: int)
    requires limit > 0 && start < |u|
    ensures var q := SplitAt(u, entities, start, limit);
            if |u| - start <= limit then q == |u|
            else
              && Good(u, entities, start, limit, q)
              && q <= start + (if limit == 1 then 2 else limit)
              && (forall x | q < x <= start + limit && Good(u, entities, start, limit, x) ::
                    x == start + limit && IsHighSurrogate(u[x - 1]))
  {
    if |u| - start > limit {
      GreatestGoodIsGreatest(u, entities, start, limit, WindowEdge(u, start, limit));
    }
  }

  /** Without entities: after the last newline; or, if there is none, after the last space; or at the window's edge. */
  lemma BreaksInOrder(u: seq<Unit>, start: nat, limit: int)
    requires limit > 0 && start + limit < |u|
    ensures var q, w := SplitAt(u, [], start, limit), WindowEdge(u, start, limit);
            if exists i :: start <= i < w && u[i] == 10 then u[q - 1] == 10 && forall i | q <= i < w :: u[i] != 10
            else if exists i :: start <= i < w && u[i] == 32 then u[q - 1] == 32 && forall i | q <= i < w :: u[i] != 32
            else q == w
  {
    var q, w := SplitAt(u, [], start, limit), WindowEdge(u, start, limit);
    GreatestGoodIsGreatest(u, [], start, limit, w);
    forall x | q < x <= w ensures !BreakPoint(u, start, x) {
      assert !Good(u, [], start, limit, x);
    }
    assert BreakPoint(u, start, q);
    forall i | q <= i < w ensures u[i] != 10 {
      assert !BreakPoint(u, start, i + 1);
    }
    if Without(u, start, w, 10) {
      forall i | q <= i < w ensures u[i] != 32 {
        assert !BreakPoint(u, start, i + 1);
      }
    }
  }

  /** One round of the splitting loop: the chunk starting at start, if any, and where the next one starts. */
  method SplitOne(u: seq<Unit>, entities: seq<Entity>, start: nat, max: int)
    returns (chunk: seq<TextChunk>, next: nat)
    requires max > 0 && start < |u|
    ensures next == SkipSpaces(u, SplitAt(u, entities, start, max))
    ensures chunk == ChunkAt(u, entities, start, max)
  {
    var end := SplitPoint(u, entities, start, max);
    var cut := end;
    while cut > start && IsSplitSpace(u[cut - 1])
      invariant start <= cut <= end && TrimBack(u, start, cut) == TrimBack(u, start, end)
    {
      cut := cut - 1;
    }
    chunk := [];
    if cut > start {
      var clipped := ClipEntities(entities, start, cut);
      chunk := [TextChunk(Decode(u[start..cut]), clipped)];
    }
    next := end;
    while next < |u| && IsSplitSpace(u[next])
      invariant end <= next <= |u| && SkipSpaces(u, next) == SkipSpaces(u, end)
    {
      next := next + 1;
    }
  }

  /** What the limit means, in numbers, and what a text that fits it becomes. */
  lemma ChunksKeepTheLimit(text: Text, entities: seq<Entity>, limit: Option<int>)
    ensures var chunks := Chunks(Encode(text), entities, 0, LimitOf(limit));
            && (limit.Some? && limit.value > 0 ==> AllFit(chunks, limit.value))
            && (limit.None? || limit.value <= 0 ==> AllFit(chunks, 4096))
            && (EndsInText(text) && |Encode(text)| <= (if limit.Some? && limit.value > 0 then limit.value else 4096) ==>
                  chunks == [TextChunk(text, Clip(entities, 0, |Encode(text)|))])
            && AllTrimmed(chunks)
  {
    hide Chunks, Clip, EndsInText, AllFit, AllTrimmed, Encode;
    ChunksFit(Encode(text), entities, LimitOf(limit));
    ChunksAreTrimmed(Encode(text), entities, LimitOf(limit));
    if EndsInText(text) && |Encode(text)| <= LimitOf(limit) {
      OneChunk(text, entities, LimitOf(limit));
    }
  }

  lemma NextChunk(u: seq<Unit>, entities: seq<Entity>, start: nat, max: int)
    requires max > 0 && start < |u|
    ensures Chunks(u, entities, start, max)
            == ChunkAt(u, entities, start, max) + Chunks(u, entities, SkipSpaces(u, SplitAt(u, entities, start, max)), max)
  {
  }

  lemma NoMoreChunks(u: seq<Unit>, entities: seq<Entity>, max: int)
    requires max > 0
    ensures Chunks(u, entities, |u|, max) == []
  {
  }

  /** The splitting loop; it terminates for every limit. */
  method SplitUnits(u: seq<Unit>, entities: seq<Entity>, max: int) returns (chunks: seq<TextChunk>)
    requires max > 0
    ensures chunks == Chunks(u, entities, 0, max)
  {
    hide *;
    NoMoreChunks(u, entities, max);
    chunks := [];
    var start := 0;
    while start < |u|
      invariant 0 <= start <= |u|
      invariant chunks + Chunks(u, entities, start, max) == Chunks(u, entities, 0, max)
      decreases |u| - start
    {
      var chunk, next := SplitOne(u, entities, start, max);
      NextChunk(u, entities, start, max);
      assert chunks + (chunk + Chunks(u, entities, next, max)) == (chunks + chunk) + Chunks(u, entities, next, max);
      chunks := chunks + chunk;
      start := next;
    }
  }

  method SplitTextWithEntities(text: Text, entities: seq<Entity>, limit: Option<int>)
    returns (chunks: seq<TextChunk>)
    ensures chunks == Chunks(Encode(text), entities, 0, LimitOf(limit))
    ensures limit.Some? && limit.value > 0 ==> AllFit(chunks, limit.value)
    ensures limit.None? || limit.value <= 0 ==> AllFit(chunks, 4096)
    ensures EndsInText(text) && |Encode(text)| <= (if limit.Some? && limit.value > 0 then limit.value else 4096) ==>
      chunks == [TextChunk(text, Clip(entities, 0, |Encode(text)|))]
    ensures AllTrimmed(chunks)
  {
    var max := LimitOf(limit);
    assert text == [] ==> Encode(text) == [];
    hide *;
    ChunksKeepTheLimit(text, entities, limit);
    if text == [] {
      NoMoreChunks(Encode(text), entities, max);
      return [];
    }
    chunks := SplitUnits(Encode(text), entities, max);
  }

  method SplitText(text: Text, limit: Option<int>) returns (out: seq<Text>)
    ensures |out| == |Chunks(Encode(text), [], 0, LimitOf(limit))|
    ensures forall k :: 0 <= k < |out| ==> out[k] == Chunks(Encode(text), [], 0, LimitOf(limit))[k].text
    ensures limit.Some? && limit.value > 0 ==> forall t | t in out :: |Encode(t)| <= if limit.value == 1 then 2 else limit.value
    ensures limit.None? || limit.value <= 0 ==> forall t | t in out :: |Encode(t)| <= 4096
    ensures EndsInText(text) && |Encode(text)| <= (if limit.Some? && limit.value > 0 then limit.value else 4096) ==>
      out == [text]
  {
    hide Chunks, Encode, EndsInText;
    var chunks := SplitTextWithEntities(text, [], limit);
    out := [];
    for i := 0 to |chunks|
      invariant |out| == i && forall k :: 0 <= k < i ==> out[k] == chunks[k].text
    {
      out := out + [chunks[i].text];
    }
  }
}
