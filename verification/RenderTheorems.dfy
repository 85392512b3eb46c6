/**
 What rendering promises (format_entities.go, entity_text.go), and what splitting a rendered tree keeps
 (format.go).
 */
module RenderTheorems {
  import opened Options
  import opened Utf16
  import opened Entities
  import opened Format
  import opened SplitTheorems
  import opened FormatEntities

  // --------------------------------------------------------------------------
  // The entities of a tree

  predicate AreShifted(entities: seq<Entity>, shifted: seq<Entity>, shift: int) {
    && |shifted| == |entities|
    && forall k | 0 <= k < |entities| :: shifted[k] == entities[k].(offset := entities[k].offset + shift)
  }

  lemma ShiftedTogether(s: seq<Entity>, s': seq<Entity>, t: seq<Entity>, t': seq<Entity>, shift: int)
    requires AreShifted(s, s', shift) && AreShifted(t, t', shift)
    ensures AreShifted(s + t, s' + t', shift)
  {
  }

  /** Rendering at another offset shifts every entity and changes nothing else. */
  lemma {:induction false} RenderShifts(n: Node, offset: int, shift: int)
    ensures AreShifted(EntitiesAt(n, offset), EntitiesAt(n, offset + shift), shift)
    decreases n
  {
    hide EntitiesOf, Units;
    if n.Group? {
      RenderShiftsOf(n.children, offset, shift);
    }
  }

  lemma {:induction false} RenderShiftsOf(ns: seq<Node>, offset: int, shift: int)
    ensures AreShifted(EntitiesOf(ns, offset), EntitiesOf(ns, offset + shift), shift)
    decreases ns
  {
    if ns != [] {
      hide EntitiesAt, Units, AreShifted;
      RenderShifts(ns[0], offset, shift);
      RenderShiftsOf(ns[1..], offset + Units(ns[0]), shift);
      assert offset + Units(ns[0]) + shift == offset + shift + Units(ns[0]);
      ShiftedTogether(EntitiesAt(ns[0], offset), EntitiesAt(ns[0], offset + shift),
                      EntitiesOf(ns[1..], offset + Units(ns[0])), EntitiesOf(ns[1..], offset + Units(ns[0]) + shift), shift);
    }
  }

  /**
   There is one entity per formatted node, in pre-order, and the text an entity covers is exactly what its node
   renders to.
   */
  lemma EntityCoversItsNode(n: Node, k: nat)
    requires k < |EntitiesAt(n, 0)|
    ensures |EntitiesAt(n, 0)| == |FormattedNodes(n)|
    ensures [EntitiesAt(n, 0)[k].style] == OwnStyle(FormattedNodes(n)[k])
    ensures EntityText(PlainText(n), EntitiesAt(n, 0)[k]) == PlainText(FormattedNodes(n)[k])
  {
    OneEntityPerNode(n, 0);
    var before, after := EntityOfNode(n, 0, k);
    var f := FormattedNodes(n)[k];
    var text := PlainText(f);
    EncodeAppend(before, text);
    EncodeAppend(before + text, after);
    var a, b := |Encode(before)|, |Encode(before)| + |Encode(text)|;
    assert Encode(PlainText(n))[a..b] == Encode(text);
    DecodeEncode(text);
  }

  /** No entity begins or ends inside a surrogate pair. */
  lemma RenderIsPairAligned(n: Node)
    ensures PairAligned(Encode(PlainText(n)), EntitiesAt(n, 0))
  {
    forall e | e in EntitiesAt(n, 0)
      ensures Aligned(Encode(PlainText(n)), e.offset) && Aligned(Encode(PlainText(n)), e.End())
    {
      var k :| 0 <= k < |EntitiesAt(n, 0)| && EntitiesAt(n, 0)[k] == e;
      var before, after := EntityOfNode(n, 0, k);
      EntityEndsAligned(PlainText(n), e, FormattedNodes(n)[k], before, after);
    }
  }

  lemma EntityEndsAligned(text: Text, e: Entity, f: Node, before: Text, after: Text)
    requires Places(text, e, 0, f, before, after)
    ensures Aligned(Encode(text), e.offset) && Aligned(Encode(text), e.End())
  {
    hide Aligned, Encode, PlainText;
    assert text[..|before|] == before;
    OffsetOf(text, |before|);
    assert text[..|before + PlainText(f)|] == before + PlainText(f);
    OffsetOf(text, |before + PlainText(f)|);
    EncodeAppend(before, PlainText(f));
  }

  lemma EntityBounds(n: Node, offset: int, k: nat)
    requires k < |EntitiesAt(n, offset)|
    ensures offset <= EntitiesAt(n, offset)[k].offset <= EntitiesAt(n, offset)[k].End() <= offset + Units(n)
  {
    var before, after := EntityOfNode(n, offset, k);
    EncodeAppend(before, PlainText(FormattedNodes(n)[k]));
    EncodeAppend(before + PlainText(FormattedNodes(n)[k]), after);
  }

  lemma EntityBoundsOf(ns: seq<Node>, offset: int, k: nat)
    requires k < |EntitiesOf(ns, offset)|
    ensures offset <= EntitiesOf(ns, offset)[k].offset
  {
    var before, after := EntityOfNodes(ns, offset, k);
  }

  predicate NestedOrAfter(outer: Entity, inner: Entity) {
    || (outer.offset <= inner.offset && inner.End() <= outer.End())
    || outer.End() <= inner.offset
  }

  /** Of two entities the later one lies inside the earlier one, or after it: spans never overlap partially. */
  lemma {:induction false} SpansNestOrFollow(n: Node, offset: int, i: nat, j: nat)
    requires i < j < |EntitiesAt(n, offset)|
    ensures NestedOrAfter(EntitiesAt(n, offset)[i], EntitiesAt(n, offset)[j])
    decreases n
  {
    hide Units, EntitiesOf;
    if n.Formatted() && i == 0 {
      EntityBounds(n, offset, j);
    } else {
      var own := if n.Formatted() then 1 else 0;
      SpansNestOrFollowOf(n.children, offset, i - own, j - own);
    }
  }

  lemma {:induction false} SpansNestOrFollowOf(ns: seq<Node>, offset: int, i: nat, j: nat)
    requires i < j < |EntitiesOf(ns, offset)|
    ensures NestedOrAfter(EntitiesOf(ns, offset)[i], EntitiesOf(ns, offset)[j])
    decreases ns
  {
    hide EntitiesAt, Units;
    var first, pos := EntitiesAt(ns[0], offset), offset + Units(ns[0]);
    if j < |first| {
      SpansNestOrFollow(ns[0], offset, i, j);
    } else if i < |first| {
      EntityBounds(ns[0], offset, i);
      EntityBoundsOf(ns[1..], pos, j - |first|);
    } else {
      SpansNestOrFollowOf(ns[1..], pos, i - |first|, j - |first|);
    }
  }

  // --------------------------------------------------------------------------
  // The meaning of a tree

  lemma NoStylesOutside(n: Node, offset: int, i: int)
    requires i < offset || offset + Units(n) <= i
    ensures StylesAt(EntitiesAt(n, offset), i) == []
  {
    forall e | e in EntitiesAt(n, offset) ensures !e.Covers(i) {
      var k :| 0 <= k < |EntitiesAt(n, offset)| && EntitiesAt(n, offset)[k] == e;
      EntityBounds(n, offset, k);
    }
    NoStyles(EntitiesAt(n, offset), i);
  }

  lemma NoStylesBefore(ns: seq<Node>, offset: int, i: int)
    requires i < offset
    ensures StylesAt(EntitiesOf(ns, offset), i) == []
  {
    forall e | e in EntitiesOf(ns, offset) ensures !e.Covers(i) {
      var k :| 0 <= k < |EntitiesOf(ns, offset)| && EntitiesOf(ns, offset)[k] == e;
      EntityBoundsOf(ns, offset, k);
    }
    NoStyles(EntitiesOf(ns, offset), i);
  }

  lemma StylesAtOne(e: Entity, i: int)
    ensures StylesAt([e], i) == if e.Covers(i) then [e.style] else []
  {
    assert [e][..0] == [];
  }

  lemma OwnEntityStyles(n: Node, offset: int, i: int)
    requires offset <= i < offset + Units(n)
    ensures StylesAt(EntitiesAt(n, offset), i)
            == OwnStyle(n) + (if n.Leaf? then [] else StylesAt(EntitiesOf(n.children, offset), i))
  {
    hide Units, StylesAt, EntitiesOf;
    var own := Entity(n.StyleOf(), offset, Units(n));
    StylesAtOne(own, i);
    NoStyles([], i);
    var inner := if n.Leaf? then [] else EntitiesOf(n.children, offset);
    if n.Formatted() {
      StylesAtAppend([own], inner, i);
    } else {
      assert [] + inner == inner;
    }
  }

  lemma {:induction false} MeaningLength(n: Node, outer: seq<Style>)
    ensures |Meaning(n, outer)| == Units(n)
    decreases n
  {
    if n.Group? {
      MeaningLengthOf(n.children, outer + OwnStyle(n));
    }
  }

  lemma {:induction false} MeaningLengthOf(ns: seq<Node>, outer: seq<Style>)
    ensures |MeaningOf(ns, outer)| == |Encode(PlainTexts(ns))|
    decreases ns
  {
    if ns != [] {
      MeaningLength(ns[0], outer);
      MeaningLengthOf(ns[1..], outer);
      EncodeAppend(PlainText(ns[0]), PlainTexts(ns[1..]));
    }
  }

  lemma {:induction false} MeaningAt(n: Node, outer: seq<Style>, offset: int, i: nat)
    requires i < Units(n)
    ensures |Meaning(n, outer)| == Units(n)
    ensures Meaning(n, outer)[i]
            == StyledUnit(Encode(PlainText(n))[i], outer + StylesAt(EntitiesAt(n, offset), offset + i))
    decreases n
  {
    hide EntitiesAt, EntitiesOf, StylesAt, MeaningOf, OwnStyle, Encode, PlainTexts;
    OwnEntityStyles(n, offset, offset + i);
    MeaningLength(n, outer);
    if n.Group? {
      MeaningAtOf(n.children, outer + OwnStyle(n), offset, i);
      var inner := StylesAt(EntitiesOf(n.children, offset), offset + i);
      assert outer + OwnStyle(n) + inner == outer + (OwnStyle(n) + inner);
    }
  }

  lemma {:induction false} MeaningAtOf(ns: seq<Node>, outer: seq<Style>, offset: int, i: nat)
    requires i < |Encode(PlainTexts(ns))|
    ensures |MeaningOf(ns, outer)| == |Encode(PlainTexts(ns))|
    ensures MeaningOf(ns, outer)[i]
            == StyledUnit(Encode(PlainTexts(ns))[i], outer + StylesAt(EntitiesOf(ns, offset), offset + i))
    decreases ns
  {
    hide EntitiesAt, Meaning, StylesAt, PlainText, EncodeScalar;
    if ns != [] {
      var first, pos := Units(ns[0]), offset + Units(ns[0]);
      MeaningLengthOf(ns, outer);
      MeaningLength(ns[0], outer);
      EncodeAppend(PlainText(ns[0]), PlainTexts(ns[1..]));
      StylesAtAppend(EntitiesAt(ns[0], offset), EntitiesOf(ns[1..], pos), offset + i);
      if i < first {
        MeaningAt(ns[0], outer, offset, i);
        NoStylesBefore(ns[1..], pos, offset + i);
      } else {
        MeaningAtOf(ns[1..], outer, pos, i - first);
        NoStylesOutside(ns[0], offset, offset + i);
      }
    }
  }

  /** Text and entities together denote exactly what the tree denotes. */
  lemma RenderKeepsMeaning(n: Node)
    ensures Styled(Encode(PlainText(n)), EntitiesAt(n, 0)) == Meaning(n, [])
  {
    hide Encode, PlainText, Meaning, StylesAt, EntitiesAt;
    MeaningLength(n, []);
    forall i | 0 <= i < Units(n)
      ensures Styled(Encode(PlainText(n)), EntitiesAt(n, 0))[i] == Meaning(n, [])[i]
    {
      MeaningAt(n, [], 0, i);
    }
  }

  // --------------------------------------------------------------------------
  // Splitting a rendered tree

  /** Each chunk, on its own, denotes exactly its range of a meaning. */
  predicate ChunksDenote(chunks: seq<TextChunk>, ranges: seq<Range>, meaning: seq<StyledUnit>) {
    && |chunks| == |ranges|
    && forall k | 0 <= k < |ranges| ::
         && ranges[k].start < ranges[k].end <= |meaning|
         && Styled(Encode(chunks[k].text), chunks[k].entities) == meaning[ranges[k].start..ranges[k].end]
  }

  /**
   Splitting a rendered tree keeps its meaning, for every tree and limit: each chunk, on its own, denotes exactly
   its range of the tree's meaning, and the chunks with whitespace around them are the tree's text.
   */
  lemma {:induction false} SplitRenderedKeepsMeaning(n: Node, limit: Option<int>) returns (gaps: seq<Text>)
    ensures var u, es := Encode(PlainText(n)), EntitiesAt(n, 0);
            var ranges, chunks := Ranges(u, es, 0, LimitOf(limit)), Chunks(u, es, 0, LimitOf(limit));
            && Tiles(u, ranges, 0, |u|)
            && ChunksDenote(chunks, ranges, Meaning(n, []))
            && Rebuilds(PlainText(n), gaps, chunks)
  {
    hide Styled, Meaning, PairAligned, Tiles, Rebuilds, Chunks, Ranges;
    var text, es := PlainText(n), EntitiesAt(n, 0);
    RenderIsPairAligned(n);
    RenderKeepsMeaning(n);
    MeaningLength(n, []);
    RangesTile(Encode(text), es, 0, LimitOf(limit));
    ChunksFollowRanges(Encode(text), es, 0, LimitOf(limit));
    gaps := SplitLosesOnlySpaces(text, es, limit);
    forall k | 0 <= k < |Ranges(Encode(text), es, 0, LimitOf(limit))|
      ensures var r := Ranges(Encode(text), es, 0, LimitOf(limit))[k];
              var c := Chunks(Encode(text), es, 0, LimitOf(limit))[k];
              Styled(Encode(c.text), c.entities) == Meaning(n, [])[r.start..r.end]
    {
      SplitKeepsFormatting(text, es, limit, k);
    }
  }
}
