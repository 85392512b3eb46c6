/**
 The formatting that rendered rich text carries (richmessage_builder.go). A reader of its own, which knows what each tag
 and attribute of the format means, reads from the HTML every character under exactly the spans that stand around it in
 the tree, and every span where it begins.
 */
module RichTextFormatting {
  import opened Options
  import opened Strings
  import opened Decimal
  import opened RichText
  import opened RichTextTheorems

  // --------------------------------------------------------------------------
  // What tags mean

  datatype Span =
    | Styled(style: TextStyle)
    | Link(address: string)
    | Mail(mailbox: string)
    | Call(number: string)
    | User(id: string)
    | Jump(anchor: string)
    | AnchorHere(anchor: string)
    | NamedReference(name: string)
    | Emoji(emojiID: string)
    | Math
    | Time(unix: string, format: string)
    | Unknown

  /** A character, or the beginning of a span, under the spans around it, outermost first. */
  datatype Item = Char(c: char, spans: seq<Span>) | Begins(span: Span, spans: seq<Span>)

  datatype Pair = Pair(name: string, value: string)

  /** The attributes that follow a tag's name, each a space, a name, an equals sign and a quoted value. */
  function ReadAttributes(s: string): seq<Pair>
    decreases |s|
  {
    var i := Index(s, '"');
    if i == |s| || i < 2 then []
    else
      var rest := s[i + 1..];
      var j := Index(rest, '"');
      [Pair(s[1..i - 1], Unescape(rest[..j]))] + ReadAttributes(if j < |rest| then rest[j + 1..] else "")
  }

  function ReadHref(address: string): Span {
    if HasPrefix(address, "mailto:") then Mail(address[7..])
    else if HasPrefix(address, "tel:") then Call(address[4..])
    else if HasPrefix(address, "tg://user?id=") then User(address[13..])
    else if HasPrefix(address, "#") then Jump(address[1..])
    else Link(address)
  }

  function ReadBareTag(name: string): Span {
    if name == "b" then Styled(Bold)
    else if name == "i" then Styled(Italic)
    else if name == "u" then Styled(Underline)
    else if name == "s" then Styled(Strikethrough)
    else if name == "tg-spoiler" then Styled(Spoiler)
    else if name == "code" then Styled(Code)
    else if name == "mark" then Styled(Marked)
    else if name == "sub" then Styled(Subscript)
    else if name == "sup" then Styled(Superscript)
    else if name == "tg-math" then Math
    else Unknown
  }

  function ReadTag(name: string, attributes: seq<Pair>): Span {
    if attributes == [] then ReadBareTag(name)
    else
      var (first, value) := (attributes[0].name, attributes[0].value);
      if |attributes| == 1 && name == "a" && first == "href" then ReadHref(value)
      else if |attributes| == 1 && name == "a" && first == "name" then AnchorHere(value)
      else if |attributes| == 1 && name == "tg-reference" && first == "name" then NamedReference(value)
      else if |attributes| == 1 && name == "tg-emoji" && first == "emoji-id" then Emoji(value)
      else if |attributes| == 2 && name == "tg-time" && first == "unix" && attributes[1].name == "format"
        then Time(value, attributes[1].value)
      else Unknown
  }

  function ReadOpening(body: string): Span {
    var name := NameOf(body);
    ReadTag(name, ReadAttributes(if |name| <= |body| then body[|name|..] else ""))
  }

  /** The tokens' items, the characters as they are written. */
  function RawItems(tokens: seq<Token>, open: seq<Span>): seq<Item> {
    if tokens == [] then []
    else
      match tokens[0]
      case Letter(c) => [Char(c, open)] + RawItems(tokens[1..], open)
      case Tag(body) =>
        if body != "" && body[0] == '/' then RawItems(tokens[1..], if open == [] then [] else open[..|open| - 1])
        else
          var span := ReadOpening(body);
          [Begins(span, open)] + RawItems(tokens[1..], open + [span])
  }

  predicate InMath(spans: seq<Span>) {
    spans != [] && spans[|spans| - 1] == Math
  }

  /** The items start with these characters, all under the same spans. */
  predicate StartsWith(items: seq<Item>, s: string) {
    && 0 < |s| <= |items| && items[0].Char?
    && forall i | 0 <= i < |s| :: items[i] == Char(s[i], items[0].spans)
  }

  /** Character references are one character, except in an expression, where every character stands for itself. */
  function Resolved(items: seq<Item>): seq<Item>
    decreases |items|
  {
    if items == [] then []
    else if items[0].Begins? || InMath(items[0].spans) then [items[0]] + Resolved(items[1..])
    else if StartsWith(items, "&amp;") then [Char('&', items[0].spans)] + Resolved(items[5..])
    else if StartsWith(items, "&lt;") then [Char('<', items[0].spans)] + Resolved(items[4..])
    else if StartsWith(items, "&gt;") then [Char('>', items[0].spans)] + Resolved(items[4..])
    else [items[0]] + Resolved(items[1..])
  }

  /** What the reader makes of a text. */
  function Read(html: string): seq<Item> {
    Resolved(RawItems(Tokens(html), []))
  }

  // --------------------------------------------------------------------------
  // What the tree says

  /** The span that a node puts around what is in it. */
  function SpanFor(t: RichText): Option<Span> {
    match t
    case Absent | Plain(_) | Sequence(_) | OfKind(_, _) => None
    case InStyle(style, _) => Some(Styled(style))
    case CustomEmoji(id, _) => Some(Emoji(id))
    case MathExpression(_) => Some(Math)
    case Url(url, _) => Some(ReadHref(url))
    case Email(address, _) => Some(Mail(address))
    case Phone(number, _) => Some(Call(number))
    case TextMention(user, _) => Some(User(IntString(if user == None then 0 else user.value)))
    case AnchorLink(name, _) => Some(Jump(name))
    case Anchor(name) => Some(AnchorHere(name))
    case Reference(name, _) => Some(NamedReference(name))
    case DateTime(time, format, _) => Some(Time(IntString(time), format))
  }

  function CharItems(s: string, spans: seq<Span>): seq<Item> {
    if s == "" then [] else [Char(s[0], spans)] + CharItems(s[1..], spans)
  }

  function ItemsOf(t: RichText, spans: seq<Span>): seq<Item>
    decreases t, 1
  {
    match SpanFor(t)
    case None => ItemsIn(t, spans)
    case Some(span) => [Begins(span, spans)] + ItemsIn(t, spans + [span])
  }

  function ItemsIn(t: RichText, spans: seq<Span>): seq<Item>
    decreases t, 0
  {
    match t
    case Absent | Anchor(_) => []
    case Plain(text) => CharItems(text, spans)
    case Sequence(parts) => ItemsOfAll(parts, spans)
    case CustomEmoji(_, alternative) => CharItems(alternative, spans)
    case MathExpression(expression) => CharItems(expression, spans)
    case _ => ItemsOf(t.inner, spans)
  }

  function ItemsOfAll(parts: seq<RichText>, spans: seq<Span>): seq<Item>
    decreases parts
  {
    if parts == [] then [] else ItemsOfAll(parts[..|parts| - 1], spans) + ItemsOf(parts[|parts| - 1], spans)
  }

  // --------------------------------------------------------------------------
  // Opening tags are read as the tree's spans

  function Pairs(attributes: seq<Attribute>): seq<Pair> {
    if attributes == [] then []
    else [Pair(attributes[0].name, attributes[0].fixed + attributes[0].value)] + Pairs(attributes[1..])
  }

  lemma {:induction false} FirstPair(name: string, value: string, rest: string)
    requires Lacks(name, '"') && Lacks(value, '"')
    ensures ReadAttributes(Attr(name, value) + rest) == [Pair(name, Unescape(value))] + ReadAttributes(rest)
  {
    var before, after := " " + name + "=", value + ("\"" + rest);
    var s := Attr(name, value) + rest;
    assert s == before + ("\"" + after);
    assert Index(s, '"') == |before| by {
      IndexIsPast(before, '"', "\"" + after);
    }
    assert s[|before| + 1..] == after && s[1..|before| - 1] == name;
    assert Index(after, '"') == |value| by {
      IndexIsPast(value, '"', "\"" + rest);
    }
    hide Index, Unescape, Attr;
    assert after[..|value|] == value && after[|value| + 1..] == rest;
  }

  lemma {:induction false} AttributesAreRead(attributes: seq<Attribute>)
    requires forall a | a in attributes :: IsAttribute(a)
    ensures ReadAttributes(AttributesText(attributes)) == Pairs(attributes)
  {
    if attributes != [] {
      var a, tail := attributes[0], AttributesText(attributes[1..]);
      AttrHasNoQuote(a.value);
      assert IsAttribute(a);
      assert Lacks(a.name, '"') && Lacks(a.fixed + HtmlAttr(a.value), '"');
      assert Lacks(a.fixed, '&');
      UnescapeRaw(a.fixed, HtmlAttr(a.value));
      UnescapeAttr(a.value);
      hide Unescape, Lacks, HtmlAttr, ReadAttributes;
      FirstPair(a.name, a.fixed + HtmlAttr(a.value), tail);
      AttributesAreRead(attributes[1..]);
    }
  }

  lemma {:induction false} OpeningIsReadAs(f: Frame)
    requires f.Element? && IsFrame(f)
    ensures ReadOpening(Opening(f)) == ReadTag(f.tag, Pairs(f.attributes))
  {
    NameEndsAtSpace(f.tag, AttributesText(f.attributes));
    AttributesAreRead(f.attributes);
    assert Opening(f)[|f.tag|..] == AttributesText(f.attributes);
    hide ReadTag, ReadAttributes, Pairs;
  }

  lemma HrefsAreRead(s: string)
    ensures ReadHref("mailto:" + s) == Mail(s) && ReadHref("tel:" + s) == Call(s)
    ensures ReadHref("tg://user?id=" + s) == User(s) && ReadHref("#" + s) == Jump(s)
  {
    StartsSame("mailto:", s);
    StartsSame("tel:", s);
    StartsSame("tg://user?id=", s);
    StartsSame("#", s);
    StartsDiffer("tel:" + s, "mailto:", 0);
    StartsDiffer("tg://user?id=" + s, "mailto:", 0);
    StartsDiffer("tg://user?id=" + s, "tel:", 1);
    StartsDiffer("#" + s, "mailto:", 0);
    StartsDiffer("#" + s, "tel:", 0);
    StartsDiffer("#" + s, "tg://user?id=", 0);
    hide HasPrefix;
  }

  lemma TwoPairs(a: Attribute, b: Attribute)
    ensures Pairs([a, b]) == [Pair(a.name, a.fixed + a.value), Pair(b.name, b.fixed + b.value)]
  {
    assert [a, b][1..] == [b] && [b][1..] == [];
    assert Pairs([b]) == [Pair(b.name, b.fixed + b.value)];
  }

  lemma OwnValue(s: string)
    ensures "" + s == s
  {
  }

  lemma {:induction false} FrameMeansSpan(t: RichText)
    requires FrameOf(t).Element?
    ensures SpanFor(t) == Some(ReadTag(FrameOf(t).tag, Pairs(FrameOf(t).attributes)))
  {
    hide IntString, ReadHref;
    match t
    case InStyle(_, _) | MathExpression(_) =>
    case CustomEmoji(id, _) => OwnValue(id);
    case Url(url, _) => OwnValue(url);
    case Email(address, _) => HrefsAreRead(address);
    case Phone(number, _) => HrefsAreRead(number);
    case TextMention(user, _) => HrefsAreRead(IntString(UserID(user)));
    case AnchorLink(name, _) => HrefsAreRead(name);
    case Anchor(name) => OwnValue(name);
    case Reference(name, _) => OwnValue(name);
    case DateTime(time, format, _) =>
      OwnValue(IntString(time));
      OwnValue(format);
      TwoPairs(Attribute("unix", "", IntString(time)), Attribute("format", "", format));
  }

  /** The opening tag of a node is read as the node's span. */
  lemma {:induction false} OpeningMeansSpan(t: RichText)
    ensures FrameOf(t).NoTag? <==> SpanFor(t).None?
    ensures FrameOf(t).Element? ==>
      SpanFor(t) == Some(ReadOpening(Opening(FrameOf(t)))) && Opening(FrameOf(t)) != "" && Opening(FrameOf(t))[0] != '/'
  {
    if FrameOf(t).Element? {
      FramesAreFrames(t);
      OpeningIsReadAs(FrameOf(t));
      FrameMeansSpan(t);
    }
  }

  // --------------------------------------------------------------------------
  // Characters

  lemma {:induction false} RawFirst(token: Token, rest: seq<Token>, open: seq<Span>)
    ensures RawItems([token] + rest, open)
            == if token.Letter? then [Char(token.c, open)] + RawItems(rest, open)
               else if token.body != "" && token.body[0] == '/' then
                 RawItems(rest, if open == [] then [] else open[..|open| - 1])
               else [Begins(ReadOpening(token.body), open)] + RawItems(rest, open + [ReadOpening(token.body)])
  {
    assert ([token] + rest)[1..] == rest;
  }

  lemma {:induction false} CharsAreItems(s: string, rest: seq<Token>, open: seq<Span>)
    ensures RawItems(Chars(s) + rest, open) == CharItems(s, open) + RawItems(rest, open)
  {
    if s == "" {
      assert Chars(s) + rest == rest;
    } else {
      FirstChar(s, rest);
      CharsAreItems(s[1..], rest, open);
      hide RawItems, Chars;
      RawFirst(Letter(s[0]), Chars(s[1..]) + rest, open);
    }
  }

  lemma {:induction false} ItemsAppend(s: string, x: string, spans: seq<Span>)
    ensures CharItems(s + x, spans) == CharItems(s, spans) + CharItems(x, spans)
  {
    if s == "" {
      assert s + x == x;
    } else {
      ItemsAppend(s[1..], x, spans);
      assert (s + x)[1..] == s[1..] + x;
    }
  }

  lemma {:induction false} ItemsAt(s: string, spans: seq<Span>)
    ensures |CharItems(s, spans)| == |s|
    ensures forall i | 0 <= i < |s| :: CharItems(s, spans)[i] == Char(s[i], spans)
  {
    if s != "" {
      ItemsAt(s[1..], spans);
    }
  }

  lemma {:induction false} ReferenceIsResolved(c: char, spans: seq<Span>, rest: seq<Item>)
    requires !InMath(spans)
    ensures Resolved(CharItems(EscapeChar(c), spans) + rest) == [Char(c, spans)] + Resolved(rest)
  {
    var items := CharItems(EscapeChar(c), spans) + rest;
    ItemsAt(EscapeChar(c), spans);
    hide CharItems, InMath;
    assert items[0].spans == spans;
    assert items[|EscapeChar(c)|..] == rest;
    if c == '&' {
      assert StartsWith(items, "&amp;");
    } else if c == '<' {
      assert items[1].c == 'l';
      assert StartsWith(items, "&lt;") && !StartsWith(items, "&amp;");
    } else if c == '>' {
      assert items[1].c == 'g';
      assert StartsWith(items, "&gt;") && !StartsWith(items, "&amp;") && !StartsWith(items, "&lt;");
    } else {
      assert items[0].c == c;
      assert !StartsWith(items, "&amp;") && !StartsWith(items, "&lt;") && !StartsWith(items, "&gt;");
    }
  }

  lemma {:induction false} EscapedIsResolved(s: string, spans: seq<Span>, rest: seq<Item>)
    requires !InMath(spans)
    ensures Resolved(CharItems(EscapeHTML(s), spans) + rest) == CharItems(s, spans) + Resolved(rest)
  {
    if s == "" {
      assert CharItems(EscapeHTML(s), spans) + rest == rest;
    } else {
      var head, tail := EscapeChar(s[0]), EscapeHTML(s[1..]);
      assert EscapeHTML(s) == head + tail && CharItems(s, spans) == [Char(s[0], spans)] + CharItems(s[1..], spans);
      hide Resolved, CharItems, EscapeChar, EscapeHTML, InMath;
      ItemsAppend(head, tail, spans);
      EscapedIsResolved(s[1..], spans, rest);
      Associative(CharItems(head, spans), CharItems(tail, spans), rest);
      ReferenceIsResolved(s[0], spans, CharItems(tail, spans) + rest);
      Associative([Char(s[0], spans)], CharItems(s[1..], spans), Resolved(rest));
    }
  }

  lemma {:induction false} MathCharIsResolved(c: char, spans: seq<Span>, rest: seq<Item>)
    requires InMath(spans)
    ensures Resolved([Char(c, spans)] + rest) == [Char(c, spans)] + Resolved(rest)
  {
    assert ([Char(c, spans)] + rest)[1..] == rest;
  }

  lemma {:induction false} ExpressionIsResolved(s: string, spans: seq<Span>, rest: seq<Item>)
    requires InMath(spans)
    ensures Resolved(CharItems(s, spans) + rest) == CharItems(s, spans) + Resolved(rest)
  {
    if s == "" {
      assert CharItems(s, spans) + rest == rest;
    } else {
      var head, tail := [Char(s[0], spans)], CharItems(s[1..], spans);
      assert CharItems(s, spans) == head + tail;
      hide Resolved, CharItems, InMath;
      Associative(head, tail, rest);
      MathCharIsResolved(s[0], spans, tail + rest);
      ExpressionIsResolved(s[1..], spans, rest);
      Associative(head, tail, Resolved(rest));
    }
  }

  lemma {:induction false} BeginningIsResolved(span: Span, spans: seq<Span>, rest: seq<Item>)
    ensures Resolved([Begins(span, spans)] + rest) == [Begins(span, spans)] + Resolved(rest)
  {
    assert ([Begins(span, spans)] + rest)[1..] == rest;
  }

  // --------------------------------------------------------------------------
  // Trees

  lemma {:induction false} TreeIsRead(t: RichText, rest: seq<Token>, open: seq<Span>)
    requires !InMath(open)
    ensures Resolved(RawItems(TokensOf(t) + rest, open)) == ItemsOf(t, open) + Resolved(RawItems(rest, open))
    decreases t, 1
  {
    OpeningMeansSpan(t);
    if FrameOf(t).NoTag? {
      InsideIsReadAs(t, rest, open);
    } else {
      var span := SpanFor(t).value;
      InsideIsReadAs(t, [Tag("/" + FrameOf(t).tag)] + rest, open + [span]);
      SpanIsRead(t, rest, open);
    }
  }

  lemma {:induction false} SpanIsRaw(t: RichText, rest: seq<Token>, open: seq<Span>)
    requires FrameOf(t).Element? && SpanFor(t).Some?
    ensures var span, close := SpanFor(t).value, [Tag("/" + FrameOf(t).tag)] + rest;
            && RawItems(TokensOf(t) + rest, open) == [Begins(span, open)] + RawItems(InsideTokens(t) + close, open + [span])
            && RawItems(close, open + [span]) == RawItems(rest, open)
  {
    OpeningMeansSpan(t);
    FramedTokens(t, rest);
    hide FrameOf, InsideTokens, TokensOf, RawItems, ReadOpening, SpanFor;
    var span, close := SpanFor(t).value, [Tag("/" + FrameOf(t).tag)] + rest;
    RawFirst(Tag(Opening(FrameOf(t))), InsideTokens(t) + close, open);
    RawFirst(Tag("/" + FrameOf(t).tag), rest, open + [span]);
    assert (open + [span])[..|open|] == open;
  }

  lemma {:induction false} SpanIsRead(t: RichText, rest: seq<Token>, open: seq<Span>)
    requires FrameOf(t).Element? && SpanFor(t).Some?
    ensures var within, close := open + [SpanFor(t).value], [Tag("/" + FrameOf(t).tag)] + rest;
            Resolved(RawItems(InsideTokens(t) + close, within)) == ItemsIn(t, within) + Resolved(RawItems(close, within))
            ==> Resolved(RawItems(TokensOf(t) + rest, open)) == ItemsOf(t, open) + Resolved(RawItems(rest, open))
  {
    hide FrameOf, InsideTokens, TokensOf, RawItems, Resolved, ItemsIn, SpanFor;
    var span, close := SpanFor(t).value, [Tag("/" + FrameOf(t).tag)] + rest;
    SpanIsRaw(t, rest, open);
    BeginningIsResolved(span, open, RawItems(InsideTokens(t) + close, open + [span]));
    assert ItemsOf(t, open) == [Begins(span, open)] + ItemsIn(t, open + [span]);
    Associative([Begins(span, open)], ItemsIn(t, open + [span]), Resolved(RawItems(rest, open)));
  }

  lemma {:induction false} InsideIsReadAs(t: RichText, rest: seq<Token>, open: seq<Span>)
    requires InMath(open) <==> t.MathExpression?
    ensures Resolved(RawItems(InsideTokens(t) + rest, open)) == ItemsIn(t, open) + Resolved(RawItems(rest, open))
    decreases t, 0
  {
    hide TokensOf, ItemsOf, Resolved, RawItems, EscapeHTML, InMath;
    match t
    case Absent | Anchor(_) => assert InsideTokens(t) + rest == rest;
    case Plain(text) =>
      CharsAreItems(EscapeHTML(text), rest, open);
      EscapedIsResolved(text, open, RawItems(rest, open));
    case Sequence(parts) => TreesAreRead(parts, rest, open);
    case CustomEmoji(_, alternative) =>
      CharsAreItems(EscapeHTML(alternative), rest, open);
      EscapedIsResolved(alternative, open, RawItems(rest, open));
    case MathExpression(expression) =>
      CharsAreItems(expression, rest, open);
      ExpressionIsResolved(expression, open, RawItems(rest, open));
    case _ => TreeIsRead(t.inner, rest, open);
  }

  lemma {:induction false} TreesAreRead(parts: seq<RichText>, rest: seq<Token>, open: seq<Span>)
    requires !InMath(open)
    ensures Resolved(RawItems(TokensOfAll(parts) + rest, open)) == ItemsOfAll(parts, open) + Resolved(RawItems(rest, open))
    decreases parts
  {
    if parts == [] {
      assert TokensOfAll(parts) + rest == rest;
    } else {
      var k := |parts| - 1;
      hide TokensOf, ItemsOf, RawItems, Resolved, InMath;
      Associative(TokensOfAll(parts[..k]), TokensOf(parts[k]), rest);
      TreesAreRead(parts[..k], TokensOf(parts[k]) + rest, open);
      TreeIsRead(parts[k], rest, open);
      Associative(ItemsOfAll(parts[..k], open), ItemsOf(parts[k], open), Resolved(RawItems(rest, open)));
    }
  }

  /**
   For every tree whose expressions contain no <: what the reader makes of the HTML is every character of the tree under
   exactly the spans around it, outermost first, and every span where it begins.
   */
  lemma FormattingIsRead(t: RichText)
    requires MathHasNoTag(t)
    ensures Read(Html(t)) == ItemsOf(t, [])
  {
    assert Html(t) + "" == Html(t) && TokensOf(t) + [] == TokensOf(t);
    HtmlIsRead(t, "");
    TreeIsRead(t, [], []);
    assert ItemsOf(t, []) + [] == ItemsOf(t, []);
  }
}
