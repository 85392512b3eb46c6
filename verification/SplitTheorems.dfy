/**
 What splitting promises (format.go, validation.go): nothing but seam whitespace is lost, every chunk fits, no
 character is cut in half, no formatting changes, and which entities a split point can cut.
 */
module SplitTheorems {
  import opened Options
  import opened Utf16
  import opened Entities
  import opened Format

  // --------------------------------------------------------------------------
  // Chunks are ordered, and only whitespace lies between them

  lemma {:induction false} TrimBackDropsSpaces(u: seq<Unit>, start: nat, end: nat)
    requires start <= end <= |u|
    ensures forall i :: TrimBack(u, start, end) <= i < end ==> IsSplitSpace(u[i])
  {
    if end > start && IsSplitSpace(u[end - 1]) {
      TrimBackDropsSpaces(u, start, end - 1);
    }
  }

  lemma {:induction false} SkipSpacesDropsSpaces(u: seq<Unit>, i: nat)
    requires i <= |u|
    ensures forall k :: i <= k < SkipSpaces(u, i) ==> IsSplitSpace(u[k])
    decreases |u| - i
  {
    if i < |u| && IsSplitSpace(u[i]) {
      SkipSpacesDropsSpaces(u, i + 1);
    }
  }

  /** Non-empty ranges of [from, to), each after the one before, with only split whitespace outside them. */
  predicate Tiles(u: seq<Unit>, ranges: seq<Range>, from: nat, to: nat)
    requires to <= |u|
  {
    if ranges == [] then from <= to && forall i :: from <= i < to ==> IsSplitSpace(u[i])
    else
      var r := ranges[0];
      && from <= r.start < r.end <= to
      && (forall i :: from <= i < r.start ==> IsSplitSpace(u[i]))
      && Tiles(u, ranges[1..], r.end, to)
  }

  lemma {:induction false} TilesEarlier(u: seq<Unit>, ranges: seq<Range>, from: nat, at: nat, to: nat)
    requires from <= at <= to <= |u| && Tiles(u, ranges, at, to)
    requires forall i :: from <= i < at ==> IsSplitSpace(u[i])
    ensures Tiles(u, ranges, from, to)
  {
  }

  /** The chunks are non-empty, in order and disjoint, and what they leave out is split whitespace only. */
  lemma {:induction false} RangesTile(u: seq<Unit>, entities: seq<Entity>, start: nat, limit: int)
    requires limit > 0 && start <= |u|
    ensures Tiles(u, Ranges(u, entities, start, limit), start, |u|)
    decreases |u| - start
  {
    if start < |u| {
      var end := SplitAt(u, entities, start, limit);
      var cut, next := TrimBack(u, start, end), SkipSpaces(u, end);
      TrimBackDropsSpaces(u, start, end);
      SkipSpacesDropsSpaces(u, end);
      RangesTile(u, entities, next, limit);
      var rest := Ranges(u, entities, next, limit);
      TilesEarlier(u, rest, cut, next, |u|);
      if cut > start {
        assert ([Range(start, cut)] + rest)[1..] == rest;
      } else {
        assert [] + rest == rest;
      }
    }
  }

  // --------------------------------------------------------------------------
  // Every chunk can be sent

  datatype ValidationError = TextEmpty | TextTooLong(units: nat)

  function ValidateOutgoingText(text: Text): Option<ValidationError> {
    if text == [] then Some(TextEmpty)
    else if |Encode(text)| > 4096 then Some(TextTooLong(|Encode(text)|))
    else None
  }

  /** Chunks of the default limit always pass the outgoing-text check. */
  lemma DefaultChunksAreSendable(text: Text, entities: seq<Entity>)
    ensures forall c | c in Chunks(Encode(text), entities, 0, LimitOf(None)) :: ValidateOutgoingText(c.text) == None
  {
    ChunksFit(Encode(text), entities, LimitOf(None));
  }

  /** A text that passes the check, and does not end in whitespace, is sent as it is. */
  lemma SendableStaysWhole(text: Text, entities: seq<Entity>)
    requires ValidateOutgoingText(text) == None && EndsInText(text)
    ensures Chunks(Encode(text), entities, 0, LimitOf(None)) == [TextChunk(text, Clip(entities, 0, |Encode(text)|))]
  {
    OneChunk(text, entities, LimitOf(None));
  }

  // --------------------------------------------------------------------------
  // No character is cut in half

  lemma WindowEdgeAligned(u: seq<Unit>, start: nat, limit: int)
    requires limit > 0 && start + limit < |u| && WellFormed(u)
    ensures Aligned(u, WindowEdge(u, start, limit))
  {
  }

  /** A good point inside a pair is followed by another one: neither half is a space, and no entity ends there. */
  lemma GoodInsidePair(u: seq<Unit>, entities: seq<Entity>, start: nat, limit: int, q: nat)
    requires Good(u, entities, start, limit, q) && !Aligned(u, q) && PairAligned(u, entities)
    ensures Good(u, entities, start, limit, q + 1)
  {
    assert BreakPoint(u, start, q + 1);
  }

  lemma SplitAtAligned(u: seq<Unit>, entities: seq<Entity>, start: nat, limit: int)
    requires limit > 0 && start < |u| && WellFormed(u) && PairAligned(u, entities)
    ensures Aligned(u, SplitAt(u, entities, start, limit))
  {
    if start + limit < |u| {
      var w := WindowEdge(u, start, limit);
      WindowEdgeAligned(u, start, limit);
      GreatestGoodIsGreatest(u, entities, start, limit, w);
      var q := SplitAt(u, entities, start, limit);
      if !Aligned(u, q) {
        GoodInsidePair(u, entities, start, limit, q);
        assert false;
      }
    }
  }

  /** Neither the trimmed end of a chunk nor the start of the next one separates a pair. */
  lemma SeamAligned(u: seq<Unit>, entities: seq<Entity>, start: nat, limit: int)
    requires limit > 0 && start < |u| && Aligned(u, start) && WellFormed(u) && PairAligned(u, entities)
    ensures Aligned(u, TrimBack(u, start, SplitAt(u, entities, start, limit)))
    ensures Aligned(u, SkipSpaces(u, SplitAt(u, entities, start, limit)))
  {
    hide SplitAt, TrimBack, SkipSpaces, WellFormed, PairAligned;
    var end := SplitAt(u, entities, start, limit);
    SplitAtAligned(u, entities, start, limit);
    TrimBackDropsSpaces(u, start, end);
    SkipSpacesDropsSpaces(u, end);
  }

  lemma {:induction false} RangesAligned(u: seq<Unit>, entities: seq<Entity>, start: nat, limit: int)
    requires limit > 0 && start <= |u| && Aligned(u, start) && WellFormed(u) && PairAligned(u, entities)
    ensures forall r | r in Ranges(u, entities, start, limit) :: Aligned(u, r.start) && Aligned(u, r.end)
    decreases |u| - start
  {
    if start < |u| {
      SeamAligned(u, entities, start, limit);
      RangesAligned(u, entities, SkipSpaces(u, SplitAt(u, entities, start, limit)), limit);
    }
  }

  // --------------------------------------------------------------------------
  // No text is lost

  predicate AllSpace(t: Text) {
    forall i | 0 <= i < |t| :: t[i] in [SPACE, NEWLINE, 13, 9]
  }

  /** gaps and texts in turn, starting and ending with a gap. */
  function Interleave(gaps: seq<Text>, chunks: seq<TextChunk>): Text
    requires |gaps| == |chunks| + 1
  {
    if chunks == [] then gaps[0]
    else gaps[0] + chunks[0].text + Interleave(gaps[1..], chunks[1..])
  }

  lemma {:induction false} DecodeSpaces(u: seq<Unit>)
    requires forall i :: 0 <= i < |u| ==> IsSplitSpace(u[i])
    ensures AllSpace(Decode(u))
  {
    if u != [] {
      DecodeSpaces(u[1..]);
    }
  }

  lemma DecodeTail(u: seq<Unit>, from: nat, at: nat)
    requires from <= at <= |u| && Aligned(u, from) && Aligned(u, at)
    ensures Decode(u[from..]) == Decode(u[from..at]) + Decode(u[at..])
  {
    DecodeSplit(u[from..], at - from);
    assert u[from..][..at - from] == u[from..at] && u[from..][at - from..] == u[at..];
  }

  predicate AllGaps(gaps: seq<Text>) {
    forall k | 0 <= k < |gaps| :: AllSpace(gaps[k])
  }

  lemma AllSpaceConcat(s: Text, t: Text)
    requires AllSpace(s) && AllSpace(t)
    ensures AllSpace(s + t) && AllSpace([])
  {
  }

  /** A chunk, if there is one here, and the whitespace after it, in front of an interleaving. */
  lemma {:induction false} Prepend(here: seq<TextChunk>, seam: Text, gaps: seq<Text>, chunks: seq<TextChunk>)
    returns (more: seq<Text>)
    requires |here| <= 1 && |gaps| == |chunks| + 1 && AllGaps(gaps) && AllSpace(seam)
    ensures |more| == |here + chunks| + 1 && AllGaps(more)
    ensures Interleave(more, here + chunks)
            == (if here == [] then [] else here[0].text) + seam + Interleave(gaps, chunks)
  {
    hide AllSpace;
    assert AllSpace(seam + gaps[0]) && AllSpace([]) by {
      AllSpaceConcat(seam, gaps[0]);
    }
    more := [seam + gaps[0]] + gaps[1..];
    assert more[1..] == gaps[1..];
    if chunks != [] {
      var tail := Interleave(gaps[1..], chunks[1..]);
      assert seam + gaps[0] + chunks[0].text + tail == seam + (gaps[0] + chunks[0].text + tail);
    }
    assert Interleave(more, chunks) == seam + Interleave(gaps, chunks);
    if here == [] {
      assert here + chunks == chunks;
    } else {
      assert (here + chunks)[1..] == chunks && ([[]] + more)[1..] == more;
      assert here[0].text + (seam + Interleave(gaps, chunks)) == here[0].text + seam + Interleave(gaps, chunks);
      more := [[]] + more;
    }
  }

  lemma NothingLeft(u: seq<Unit>)
    ensures Decode(u[|u|..]) == Interleave([[]], []) && AllGaps([[]])
  {
  }

  lemma ChunkAtText(u: seq<Unit>, entities: seq<Entity>, start: nat, limit: int)
    requires limit > 0 && start < |u|
    ensures var here := ChunkAt(u, entities, start, limit);
            Decode(u[start..TrimBack(u, start, SplitAt(u, entities, start, limit))])
            == if here == [] then [] else here[0].text
  {
    hide SplitAt, TrimBack;
  }

  /** The text from start on is its chunks with whitespace around them. */
  lemma {:induction false} Rebuild(u: seq<Unit>, entities: seq<Entity>, start: nat, limit: int)
    returns (gaps: seq<Text>)
    requires limit > 0 && start <= |u| && Aligned(u, start) && WellFormed(u) && PairAligned(u, entities)
    ensures |gaps| == |Chunks(u, entities, start, limit)| + 1 && AllGaps(gaps)
    ensures Decode(u[start..]) == Interleave(gaps, Chunks(u, entities, start, limit))
    decreases |u| - start
  {
    hide SplitAt, SkipSpaces, TrimBack, Clip, PairAligned, WellFormed, AllSpace, AllGaps, Aligned, Interleave, Decode;
    if start == |u| {
      gaps := [[]];
      NothingLeft(u);
    } else {
      var end := SplitAt(u, entities, start, limit);
      var cut, next := TrimBack(u, start, end), SkipSpaces(u, end);
      SeamAligned(u, entities, start, limit);
      TrimBackDropsSpaces(u, start, end);
      SkipSpacesDropsSpaces(u, end);
      var rest := Rebuild(u, entities, next, limit);
      DecodeSpaces(u[cut..next]);
      DecodeTail(u, start, cut);
      DecodeTail(u, cut, next);
      gaps := Prepend(ChunkAt(u, entities, start, limit), Decode(u[cut..next]), rest,
                      Chunks(u, entities, next, limit));
      ChunkAtText(u, entities, start, limit);
    }
  }

  /** The text is the chunks' texts in order, with the gaps before, between and after them, all whitespace. */
  predicate Rebuilds(text: Text, gaps: seq<Text>, chunks: seq<TextChunk>) {
    |gaps| == |chunks| + 1 && AllGaps(gaps) && text == Interleave(gaps, chunks)
  }

  /**
   When no entity offset falls inside a surrogate pair, the original text is the chunks' texts in order with
   nothing but split whitespace before, between and after them.
   */
  lemma {:induction false} SplitLosesOnlySpaces(text: Text, entities: seq<Entity>, limit: Option<int>)
      returns (gaps: seq<Text>)
    requires PairAligned(Encode(text), entities)
    ensures Rebuilds(text, gaps, Chunks(Encode(text), entities, 0, LimitOf(limit)))
  {
    var u, max := Encode(text), LimitOf(limit);
    EncodeWellFormed(text);
    DecodeEncode(text);
    gaps := Rebuild(u, entities, 0, max);
    assert u[0..] == u;
  }

  // --------------------------------------------------------------------------
  // No formatting is lost

  /**
   Chunk k denotes exactly the formatted text of its range: at every position, the same styles in the same order
   as the original entities give there. When no entity offset falls inside a pair, the chunk's text re-encodes to
   the range's own units, so this is the formatting the receiver sees.
   */
  lemma SplitKeepsFormatting(text: Text, entities: seq<Entity>, limit: Option<int>, k: nat)
    requires k < |Ranges(Encode(text), entities, 0, LimitOf(limit))|
    ensures k < |Chunks(Encode(text), entities, 0, LimitOf(limit))|
    ensures var u := Encode(text);
            var r := Ranges(u, entities, 0, LimitOf(limit))[k];
            var c := Chunks(u, entities, 0, LimitOf(limit))[k];
            && r.start < r.end <= |u|
            && Styled(u[r.start..r.end], c.entities) == Styled(u, entities)[r.start..r.end]
            && (PairAligned(u, entities) ==> Encode(c.text) == u[r.start..r.end])
  {
    var u, max := Encode(text), LimitOf(limit);
    var r := Ranges(u, entities, 0, max)[k];
    ChunksFollowRanges(u, entities, 0, max);
    ClipKeepsMeaning(u, entities, r.start, r.end);
    if PairAligned(u, entities) {
      EncodeWellFormed(text);
      RangesAligned(u, entities, 0, max);
      SliceIsText(text, r.start, r.end);
    }
  }

  // --------------------------------------------------------------------------
  // Which entities a split point cuts

  /** The documented promise: a split point cuts no entity short enough to fit a chunk. */
  predicate CutsNoFittingEntity(entities: seq<Entity>, limit: int, q: int) {
    forall e | e in entities :: e.length <= limit ==> !e.Crosses(q)
  }

  /** No entity that starts strictly inside the chunk and fits the limit is cut, wherever the split point is. */
  lemma LaterEntitiesAreWhole(u: seq<Unit>, entities: seq<Entity>, start: nat, limit: int)
    requires limit > 0 && start + limit < |u|
    ensures var q := SplitAt(u, entities, start, limit);
            && BreakPoint(u, start, q)
            && forall e | e in entities :: Avoidable(e, start, limit) ==> !e.Crosses(q)
  {
    GreatestGoodIsGreatest(u, entities, start, limit, WindowEdge(u, start, limit));
  }

  /**
   The documented promise holds exactly when every fitting entity that is already open at the chunk start has a
   good point between its end and the edge of the window.
   */
  lemma PromiseHoldsExactly(u: seq<Unit>, entities: seq<Entity>, start: nat, limit: int)
    requires limit > 0 && start + limit < |u|
    ensures CutsNoFittingEntity(entities, limit, SplitAt(u, entities, start, limit))
            <==> forall e | e in entities :: e.length <= limit && e.offset <= start < e.End() ==>
                   exists x :: e.End() <= x <= WindowEdge(u, start, limit) && Good(u, entities, start, limit, x)
  {
    var w, q := WindowEdge(u, start, limit), SplitAt(u, entities, start, limit);
    GreatestGoodIsGreatest(u, entities, start, limit, w);
    LaterEntitiesAreWhole(u, entities, start, limit);
    if CutsNoFittingEntity(entities, limit, q) {
      forall e | e in entities && e.length <= limit && e.offset <= start < e.End()
        ensures exists x :: e.End() <= x <= w && Good(u, entities, start, limit, x)
      {
        assert !e.Crosses(q);
        assert e.End() <= q <= w && Good(u, entities, start, limit, q);
      }
    }
  }

  function HelloWorld(): seq<Unit> {
    [104, 101, 108, 108, 111, 32, 119, 111, 114, 108, 100, 120, 120, 120, 120, 120, 120, 120]
  }

  /**
   The promise is not kept by "hello worldxxxxxxx" with one entity over "hello world" and a limit of 12: the
   entity fits, but it starts at the chunk start, so the split point is the space inside it.
   */
  lemma PromiseFails(style: Style)
    ensures var e := Entity(style, 0, 11);
            && e.length <= 12 && SplitAt(HelloWorld(), [e], 0, 12) == 6 && e.Crosses(6)
            && !CutsNoFittingEntity([e], 12, 6)
  {
    var u, e := HelloWorld(), Entity(style, 0, 11);
    assert e in [e];
    assert u[5] == SPACE && Without(u, 0, 12, NEWLINE);
    assert WindowEdge(u, 0, 12) == 12;
    GreatestGoodIsGreatest(u, [e], 0, 12, 12);
    assert Good(u, [e], 0, 12, 6);
    assert forall i | 6 <= i < 12 :: u[i] != SPACE && u[i] != NEWLINE;
    assert forall x :: 6 < x <= 12 ==> !Without(u, 0, x, SPACE);
  }
}
