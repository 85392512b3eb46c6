/**
 Rendering a tree of formatting nodes to text and entities (format_entities.go), and reading an entity's text back
 (entity_text.go).
 */
module FormatEntities {
  import opened Options
  import opened Utf16
  import opened Entities

  /** A leaf has a text and a style, whose kind is "" for plain text; a group has children, a kind or "". */
  datatype Node =
    | Leaf(style: Style, text: Text)
    | Group(kind: string, children: seq<Node>)
  {
    predicate Formatted() {
      (if Leaf? then style.kind else kind) != ""
    }

    function StyleOf(): Style {
      if Leaf? then style else Style(kind, "", None, "", "")
    }
  }

  // --------------------------------------------------------------------------
  // What a tree denotes

  function PlainText(n: Node): Text
    decreases n
  {
    match n
    case Leaf(_, text) => text
    case Group(_, children) => PlainTexts(children)
  }

  function PlainTexts(ns: seq<Node>): Text
    decreases ns
  {
    if ns == [] then [] else PlainText(ns[0]) + PlainTexts(ns[1..])
  }

  function Units(n: Node): nat {
    |Encode(PlainText(n))|
  }

  /** The node's own style: all that a leaf carries, only its kind for a group, and nothing for a kind of "". */
  function OwnStyle(n: Node): seq<Style> {
    match n
    case Leaf(style, _) => if style.kind == "" then [] else [style]
    case Group(kind, _) => if kind == "" then [] else [Style(kind, "", None, "", "")]
  }

  /** The formatted nodes of a tree in pre-order. */
  function FormattedNodes(n: Node): seq<Node>
    decreases n
  {
    (if OwnStyle(n) == [] then [] else [n])
    + (if n.Leaf? then [] else FormattedNodesOf(n.children))
  }

  function FormattedNodesOf(ns: seq<Node>): seq<Node>
    decreases ns
  {
    if ns == [] then [] else FormattedNodes(ns[0]) + FormattedNodesOf(ns[1..])
  }

  /** The formatted text a tree denotes: each unit with the styles of the nodes around it, outermost first. */
  function Meaning(n: Node, outer: seq<Style>): seq<StyledUnit>
    decreases n
  {
    match n
    case Leaf(_, text) =>
      seq(|Encode(text)|, i requires 0 <= i < |Encode(text)| => StyledUnit(Encode(text)[i], outer + OwnStyle(n)))
    case Group(_, children) => MeaningOf(children, outer + OwnStyle(n))
  }

  function MeaningOf(ns: seq<Node>, outer: seq<Style>): seq<StyledUnit>
    decreases ns
  {
    if ns == [] then [] else Meaning(ns[0], outer) + MeaningOf(ns[1..], outer)
  }

  // --------------------------------------------------------------------------
  // Rendering

  function EntitiesAt(n: Node, offset: int): seq<Entity>
    decreases n
  {
    (if n.Formatted() then [Entity(n.StyleOf(), offset, Units(n))] else [])
    + (if n.Leaf? then [] else EntitiesOf(n.children, offset))
  }

  function EntitiesOf(ns: seq<Node>, offset: int): seq<Entity>
    decreases ns
  {
    if ns == [] then [] else EntitiesAt(ns[0], offset) + EntitiesOf(ns[1..], offset + Units(ns[0]))
  }

  lemma NextChild(ns: seq<Node>, i: nat, pos: int)
    requires i < |ns|
    ensures PlainTexts(ns[i..]) == PlainText(ns[i]) + PlainTexts(ns[i + 1..])
    ensures EntitiesOf(ns[i..], pos)
            == EntitiesAt(ns[i], pos) + EntitiesOf(ns[i + 1..], pos + Units(ns[i]))
  {
    assert ns[i..][1..] == ns[i + 1..];
  }

  method Render(n: Node, offset: int) returns (text: Text, entities: seq<Entity>)
    ensures text == PlainText(n) && entities == EntitiesAt(n, offset)
    decreases n
  {
    hide Encode, PlainTexts, EntitiesOf;
    if n.Leaf? {
      if n.style.kind == "" {
        return n.text, [];
      }
      return n.text, [Entity(n.style, offset, |Encode(n.text)|)];
    }
    text, entities := [], [];
    var pos := offset;
    NoChildren(pos);
    assert n.children[0..] == n.children;
    for i := 0 to |n.children|
      invariant text + PlainTexts(n.children[i..]) == PlainTexts(n.children)
      invariant pos == offset + |Encode(text)|
      invariant entities + EntitiesOf(n.children[i..], pos) == EntitiesOf(n.children, offset)
    {
      var childText, childEntities := Render(n.children[i], pos);
      NextChild(n.children, i, pos);
      EncodeAppend(text, childText);
      text := text + childText;
      entities := entities + childEntities;
      pos := pos + |Encode(childText)|;
    }
    NoChildren(pos);
    assert n.children[|n.children|..] == [];
    if n.kind != "" {
      entities := [Entity(Style(n.kind, "", None, "", ""), offset, pos - offset)] + entities;
    }
  }

  lemma NoChildren(pos: int)
    ensures Encode([]) == [] && PlainTexts([]) == [] && EntitiesOf([], pos) == []
  {
  }

  datatype Part = Str(text: Text) | Sub(node: Node) | Unsupported

  /** None stands for the panic on a part that is neither a string nor a node. */
  method NodesFrom(parts: seq<Part>) returns (nodes: Option<seq<Node>>)
    ensures nodes.None? <==> Unsupported in parts
    ensures nodes.Some? ==> |nodes.value| == |parts|
    ensures nodes.Some? ==> forall k | 0 <= k < |parts| ::
      nodes.value[k] == if parts[k].Sub? then parts[k].node else Leaf(Style("", "", None, "", ""), parts[k].text)
  {
    var out := [];
    for i := 0 to |parts|
      invariant |out| == i && Unsupported !in parts[..i]
      invariant forall k | 0 <= k < i ::
        out[k] == if parts[k].Sub? then parts[k].node else Leaf(Style("", "", None, "", ""), parts[k].text)
    {
      match parts[i]
      case Str(text) => out := out + [Leaf(Style("", "", None, "", ""), text)];
      case Sub(node) => out := out + [node];
      case Unsupported => return None;
    }
    return Some(out);
  }

  function SliceUtf16(text: Text, start: int, end: int): Text {
    var u := Encode(text);
    if start < 0 || end > |u| || start > end then [] else Decode(u[start..end])
  }

  function EntityText(text: Text, e: Entity): Text {
    SliceUtf16(text, e.offset, e.End())
  }

  /** Between two offsets outside pairs this is the text of those units; offsets that do not fit the text give nothing. */
  lemma EntityTextExactly(text: Text, e: Entity)
    ensures 0 <= e.offset <= e.End() <= |Encode(text)| && Aligned(Encode(text), e.offset) && Aligned(Encode(text), e.End())
            ==> Encode(EntityText(text, e)) == Encode(text)[e.offset..e.End()]
    ensures e.offset < 0 || e.length < 0 || e.End() > |Encode(text)| ==> EntityText(text, e) == []
  {
    if 0 <= e.offset <= e.End() <= |Encode(text)| && Aligned(Encode(text), e.offset) && Aligned(Encode(text), e.End()) {
      SliceIsText(text, e.offset, e.End());
    }
  }

  // --------------------------------------------------------------------------
  // One entity per formatted node, in pre-order, over exactly that node's text

  lemma {:induction false} OneEntityPerNode(n: Node, offset: int)
    ensures |EntitiesAt(n, offset)| == |FormattedNodes(n)|
    decreases n
  {
    if n.Group? {
      OneEntityPerNodeOf(n.children, offset);
    }
  }

  lemma {:induction false} OneEntityPerNodeOf(ns: seq<Node>, offset: int)
    ensures |EntitiesOf(ns, offset)| == |FormattedNodesOf(ns)|
    decreases ns
  {
    hide EntitiesAt, FormattedNodes, Units;
    if ns != [] {
      OneEntityPerNode(ns[0], offset);
      OneEntityPerNodeOf(ns[1..], offset + Units(ns[0]));
    }
  }

  /** The k-th entity belongs to the k-th formatted node f, and the text around f places it. */
  predicate Places(text: Text, e: Entity, offset: int, f: Node, before: Text, after: Text) {
    && text == before + PlainText(f) + after
    && [e.style] == OwnStyle(f) && e.offset == offset + |Encode(before)| && e.length == |Encode(PlainText(f))|
  }

  lemma {:induction false} EntityOfNode(n: Node, offset: int, k: nat) returns (before: Text, after: Text)
    requires k < |EntitiesAt(n, offset)|
    ensures k < |FormattedNodes(n)|
    ensures Places(PlainText(n), EntitiesAt(n, offset)[k], offset, FormattedNodes(n)[k], before, after)
    decreases n
  {
    OneEntityPerNode(n, offset);
    before, after := [], [];
    var own := if n.Formatted() then 1 else 0;
    if k >= own {
      before, after := EntityOfNodes(n.children, offset, k - own);
    } else {
      assert PlainText(n) == [] + PlainText(n) + [];
    }
  }

  lemma PlacesBefore(text: Text, e: Entity, offset: int, f: Node, before: Text, after: Text, more: Text)
    requires Places(text, e, offset, f, before, after)
    ensures Places(text + more, e, offset, f, before, after + more)
  {
    assert before + PlainText(f) + after + more == before + PlainText(f) + (after + more);
  }

  lemma PlacesAfter(text: Text, e: Entity, offset: int, f: Node, before: Text, after: Text, less: Text)
    requires Places(text, e, offset + |Encode(less)|, f, before, after)
    ensures Places(less + text, e, offset, f, less + before, after)
  {
    hide Encode, PlainText;
    EncodeAppend(less, before);
    assert less + (before + PlainText(f) + after) == (less + before) + PlainText(f) + after;
  }

  lemma {:induction false} EntityOfNodes(ns: seq<Node>, offset: int, k: nat) returns (before: Text, after: Text)
    requires k < |EntitiesOf(ns, offset)|
    ensures k < |FormattedNodesOf(ns)|
    ensures Places(PlainTexts(ns), EntitiesOf(ns, offset)[k], offset, FormattedNodesOf(ns)[k], before, after)
    decreases ns
  {
    hide Encode, PlainText, Places, EntitiesAt, FormattedNodes;
    var first := EntitiesAt(ns[0], offset);
    OneEntityPerNode(ns[0], offset);
    if k < |first| {
      before, after := EntityOfNode(ns[0], offset, k);
      PlacesBefore(PlainText(ns[0]), first[k], offset, FormattedNodes(ns[0])[k], before, after, PlainTexts(ns[1..]));
      after := after + PlainTexts(ns[1..]);
    } else {
      var pos := offset + Units(ns[0]);
      before, after := EntityOfNodes(ns[1..], pos, k - |first|);
      PlacesAfter(PlainTexts(ns[1..]), EntitiesOf(ns[1..], pos)[k - |first|], offset,
                  FormattedNodesOf(ns[1..])[k - |first|], before, after, PlainText(ns[0]));
      before := PlainText(ns[0]) + before;
    }
  }
}
