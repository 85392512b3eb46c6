/**
 Formatting entities and what they mean: a list of entities gives every UTF-16 unit of a text the list of styles
 that cover it, in entity order. Splitting, rendering and segmenting are all judged by this meaning.
 */
module Entities {
  import opened Options
  import opened Utf16

  /** Everything an entity carries apart from its position. */
  datatype Style = Style(kind: string, url: string, user: Option<int>, language: string, customEmojiID: string)

  datatype Entity = Entity(style: Style, offset: int, length: int) {
    function End(): int {
      offset + length
    }

    predicate Covers(i: int) {
      offset <= i < End()
    }

    /** The cut at q has units of this entity on both sides. */
    predicate Crosses(q: int) {
      offset < q < End()
    }
  }

  datatype StyledUnit = StyledUnit(unit: Unit, styles: seq<Style>)

  /** The styles covering unit i, in entity order. */
  function StylesAt(entities: seq<Entity>, i: int): seq<Style> {
    if entities == [] then []
    else
      var last := entities[|entities| - 1];
      StylesAt(entities[..|entities| - 1], i) + (if last.Covers(i) then [last.style] else [])
  }

  /** The formatted text that units u with these entities denote. */
  function Styled(u: seq<Unit>, entities: seq<Entity>): (r: seq<StyledUnit>) {
    seq(|u|, i requires 0 <= i < |u| => StyledUnit(u[i], StylesAt(entities, i)))
  }

  /** No entity begins or ends between the two units of a surrogate pair. */
  predicate PairAligned(u: seq<Unit>, entities: seq<Entity>) {
    forall e | e in entities :: Aligned(u, e.offset) && Aligned(u, e.End())
  }

  lemma {:induction false} StylesAtAppend(s: seq<Entity>, t: seq<Entity>, i: int)
    ensures StylesAt(s + t, i) == StylesAt(s, i) + StylesAt(t, i)
  {
    if t == [] {
      assert s + t == s;
    } else {
      assert (s + t)[..|s + t| - 1] == s + t[..|t| - 1];
      StylesAtAppend(s, t[..|t| - 1], i);
    }
  }

  lemma {:induction false} NoStyles(entities: seq<Entity>, i: int)
    requires forall e | e in entities :: !e.Covers(i)
    ensures StylesAt(entities, i) == []
  {
    if entities != [] {
      NoStyles(entities[..|entities| - 1], i);
    }
  }
}
