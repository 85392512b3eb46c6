/**
 Reading rendered rich text back. An independent reader cuts HTML into characters and tags (a > inside a quoted
 attribute value does not end a tag); what it finds is the tree's plain text, balanced tags and the attribute values
 that were put in.
 */
module RichTextTheorems {
  import opened Strings
  import opened Decimal
  import opened RichText

  // --------------------------------------------------------------------------
  // A reader of HTML

  datatype Token = Letter(c: char) | Tag(body: string)

  /** Where the tag whose text s starts in ends: its first > outside quotes. */
  function TagEnd(s: string, quoted: bool): (k: nat)
    ensures k <= |s|
  {
    if s == "" || (s[0] == '>' && !quoted) then 0
    else 1 + TagEnd(s[1..], if s[0] == '"' then !quoted else quoted)
  }

  function Tokens(s: string): seq<Token>
    decreases |s|
  {
    if s == "" then []
    else if s[0] != '<' then [Letter(s[0])] + Tokens(s[1..])
    else
      var k := TagEnd(s[1..], false);
      [Tag(s[1..k + 1])] + Tokens(if k + 2 <= |s| then s[k + 2..] else "")
  }

  /** The characters outside tags. */
  function TextOf(tokens: seq<Token>): string {
    if tokens == [] then ""
    else (if tokens[0].Letter? then [tokens[0].c] else "") + TextOf(tokens[1..])
  }

  function Unescape(s: string): string
    decreases |s|
  {
    if s == "" then ""
    else if HasPrefix(s, "&amp;") then "&" + Unescape(s[5..])
    else if HasPrefix(s, "&lt;") then "<" + Unescape(s[4..])
    else if HasPrefix(s, "&gt;") then ">" + Unescape(s[4..])
    else if HasPrefix(s, "&quot;") then "\"" + Unescape(s[6..])
    else [s[0]] + Unescape(s[1..])
  }

  /** The name in an opening tag: what comes before its first space. */
  function NameOf(body: string): string {
    if body == "" || body[0] == ' ' then "" else [body[0]] + NameOf(body[1..])
  }

  /** Read after some open tags, innermost first, every tag is closed in order and none is left open. */
  predicate Balanced(tokens: seq<Token>, open: seq<string>) {
    if tokens == [] then open == []
    else
      match tokens[0]
      case Letter(_) => Balanced(tokens[1..], open)
      case Tag(body) =>
        if body != "" && body[0] == '/' then open != [] && open[0] == body[1..] && Balanced(tokens[1..], open[1..])
        else Balanced(tokens[1..], [NameOf(body)] + open)
  }

  function Index(s: string, c: char): (k: nat)
    ensures k <= |s|
  {
    if s == "" || s[0] == c then 0 else 1 + Index(s[1..], c)
  }

  /** The quoted values in a tag, as a reader unescapes them. */
  function Values(body: string): seq<string>
    decreases |body|
  {
    var i := Index(body, '"');
    if i == |body| then []
    else
      var rest := body[i + 1..];
      var j := Index(rest, '"');
      [Unescape(rest[..j])] + Values(if j < |rest| then rest[j + 1..] else "")
  }

  function AllValues(tokens: seq<Token>): seq<string> {
    if tokens == [] then []
    else (if tokens[0].Tag? then Values(tokens[0].body) else []) + AllValues(tokens[1..])
  }

  // --------------------------------------------------------------------------
  // What the reader should find

  function Chars(s: string): seq<Token> {
    if s == "" then [] else [Letter(s[0])] + Chars(s[1..])
  }

  function TokensOf(t: RichText): seq<Token>
    decreases t, 1
  {
    var f := FrameOf(t);
    if f.NoTag? then InsideTokens(t) else [Tag(Opening(f))] + InsideTokens(t) + [Tag("/" + f.tag)]
  }

  function InsideTokens(t: RichText): seq<Token>
    decreases t, 0
  {
    match t
    case Absent | Anchor(_) => []
    case Plain(text) => Chars(EscapeHTML(text))
    case Sequence(spans) => TokensOfAll(spans)
    case CustomEmoji(_, alternative) => Chars(EscapeHTML(alternative))
    case MathExpression(expression) => Chars(expression)
    case _ => TokensOf(t.inner)
  }

  function TokensOfAll(spans: seq<RichText>): seq<Token>
    decreases spans
  {
    if spans == [] then [] else TokensOfAll(spans[..|spans| - 1]) + TokensOf(spans[|spans| - 1])
  }

  /** The attribute values of the tree, in the order its tags open. */
  function ValuesOf(t: RichText): seq<string>
    decreases t, 1
  {
    (if FrameOf(t).NoTag? then [] else FullValues(FrameOf(t).attributes)) + InsideValues(t)
  }

  function InsideValues(t: RichText): seq<string>
    decreases t, 0
  {
    match t
    case Absent | Anchor(_) | Plain(_) | CustomEmoji(_, _) | MathExpression(_) => []
    case Sequence(spans) => ValuesOfAll(spans)
    case _ => ValuesOf(t.inner)
  }

  function ValuesOfAll(spans: seq<RichText>): seq<string>
    decreases spans
  {
    if spans == [] then [] else ValuesOfAll(spans[..|spans| - 1]) + ValuesOf(spans[|spans| - 1])
  }

  function FullValues(attributes: seq<Attribute>): seq<string> {
    if attributes == [] then [] else [attributes[0].fixed + attributes[0].value] + FullValues(attributes[1..])
  }

  /** Expressions are written as they are, so none may start a tag. */
  predicate MathHasNoTag(t: RichText) {
    match t
    case MathExpression(expression) => Lacks(expression, '<')
    case Sequence(spans) => forall s | s in spans :: MathHasNoTag(s)
    case Absent | Anchor(_) | Plain(_) | CustomEmoji(_, _) => true
    case _ => MathHasNoTag(t.inner)
  }

  // --------------------------------------------------------------------------
  // Cutting into tokens

  predicate IsName(s: string) {
    s != "" && forall i | 0 <= i < |s| :: 'a' <= s[i] <= 'z' || s[i] == '-'
  }

  predicate IsAttribute(a: Attribute) {
    IsName(a.name) && forall i | 0 <= i < |a.fixed| :: a.fixed[i] != '"' && a.fixed[i] != '&'
  }

  predicate IsFrame(f: Frame) {
    f.Element? ==> IsName(f.tag) && forall a | a in f.attributes :: IsAttribute(a)
  }

  lemma {:induction false} StyleTagsAreNames(style: TextStyle)
    ensures IsName(StyleTag(style))
  {
  }

  lemma {:induction false} LinksAreFrames(t: RichText)
    requires t.Url? || t.Email? || t.Phone? || t.TextMention? || t.AnchorLink? || t.Anchor?
    ensures IsFrame(FrameOf(t))
  {
    hide IntString;
    assert IsName("a") && IsName("href") && IsName("name");
    hide IsName;
  }

  lemma {:induction false} FramesAreFrames(t: RichText)
    ensures IsFrame(FrameOf(t))
  {
    if t.InStyle? {
      StyleTagsAreNames(t.style);
    } else if t.Url? || t.Email? || t.Phone? || t.TextMention? || t.AnchorLink? || t.Anchor? {
      LinksAreFrames(t);
    } else {
      hide IntString;
      assert IsName("tg-emoji") && IsName("emoji-id") && IsName("tg-math") && IsName("tg-reference");
      assert IsName("name") && IsName("tg-time") && IsName("unix") && IsName("format");
      hide IsName;
    }
  }

  lemma {:induction false} EndIsPast(a: string, rest: string, quoted: bool)
    requires Lacks(a, '"') && (quoted || Lacks(a, '>'))
    ensures TagEnd(a + rest, quoted) == |a| + TagEnd(rest, quoted)
  {
    if a == "" {
      assert a + rest == rest;
    } else {
      EndIsPast(a[1..], rest, quoted);
      assert (a + rest)[1..] == a[1..] + rest;
    }
  }

  lemma {:induction false} AttrHasNoQuote(v: string)
    ensures Lacks(HtmlAttr(v), '"')
  {
    if v != "" {
      AttrHasNoQuote(v[1..]);
    }
  }

  lemma {:induction false} EndIsPastAttribute(a: Attribute, rest: string)
    requires IsAttribute(a)
    ensures TagEnd(AttributeText(a) + rest, false) == |AttributeText(a)| + TagEnd(rest, false)
  {
    var before, value := " " + a.name + "=", a.fixed + HtmlAttr(a.value);
    AttrHasNoQuote(a.value);
    assert AttributeText(a) + rest == before + ("\"" + (value + ("\"" + rest)));
    assert Lacks(before, '"') && Lacks(before, '>') && Lacks(value, '"');
    hide IsAttribute, HtmlAttr, Lacks;
    EndIsPast(before, "\"" + (value + ("\"" + rest)), false);
    assert ("\"" + (value + ("\"" + rest)))[1..] == value + ("\"" + rest);
    EndIsPast(value, "\"" + rest, true);
    assert ("\"" + rest)[1..] == rest;
  }

  lemma {:induction false} EndIsPastAttributes(attributes: seq<Attribute>, rest: string)
    requires forall a | a in attributes :: IsAttribute(a)
    ensures TagEnd(AttributesText(attributes) + rest, false) == |AttributesText(attributes)| + TagEnd(rest, false)
  {
    var text := AttributesText(attributes);
    if attributes == [] {
      assert text + rest == rest;
    } else {
      var tail := AttributesText(attributes[1..]);
      assert text + rest == AttributeText(attributes[0]) + (tail + rest);
      EndIsPastAttribute(attributes[0], tail + rest);
      EndIsPastAttributes(attributes[1..], rest);
    }
  }

  lemma {:induction false} TagIsRead(body: string, rest: string)
    ensures TagEnd(body + (">" + rest), false) == |body| ==>
      Tokens("<" + body + ">" + rest) == [Tag(body)] + Tokens(rest)
  {
    var s := "<" + body + ">" + rest;
    assert s[1..] == body + (">" + rest);
    assert s[1..|body| + 1] == body && s[|body| + 2..] == rest;
  }

  lemma {:induction false} OpeningIsRead(f: Frame, rest: string)
    requires f.Element? && IsFrame(f)
    ensures Tokens("<" + Opening(f) + ">" + rest) == [Tag(Opening(f))] + Tokens(rest)
  {
    var attributes := AttributesText(f.attributes);
    assert Opening(f) + (">" + rest) == f.tag + (attributes + (">" + rest));
    EndIsPast(f.tag, attributes + (">" + rest), false);
    EndIsPastAttributes(f.attributes, ">" + rest);
    TagIsRead(Opening(f), rest);
  }

  lemma {:induction false} ClosingIsRead(tag: string, rest: string)
    requires IsName(tag)
    ensures Tokens(CloseTag(tag) + rest) == [Tag("/" + tag)] + Tokens(rest)
  {
    var body := "/" + tag;
    EndIsPast(body, ">" + rest, false);
    TagIsRead(body, rest);
    assert CloseTag(tag) + rest == "<" + body + ">" + rest;
  }

  lemma {:induction false} TextIsRead(s: string, rest: string)
    requires Lacks(s, '<')
    ensures Tokens(s + rest) == Chars(s) + Tokens(rest)
  {
    if s == "" {
      assert s + rest == rest;
    } else {
      TextIsRead(s[1..], rest);
      assert (s + rest)[1..] == s[1..] + rest;
    }
  }

  lemma {:induction false} EscapedHasNoTag(s: string)
    ensures Lacks(EscapeHTML(s), '<')
  {
    if s != "" {
      EscapedHasNoTag(s[1..]);
    }
  }

  lemma {:induction false} FramedHtml(t: RichText, rest: string)
    requires FrameOf(t).Element?
    ensures var f := FrameOf(t);
            Html(t) + rest == "<" + Opening(f) + ">" + (Inside(t) + (CloseTag(f.tag) + rest))
  {
    var f := FrameOf(t);
    hide FrameOf, Inside, Opening, CloseTag;
    assert Html(t) == "<" + Opening(f) + ">" + Inside(t) + CloseTag(f.tag);
  }

  /** The reader cuts rendered HTML into exactly the tree's tags and characters, whatever follows. */
  lemma {:induction false} HtmlIsRead(t: RichText, rest: string)
    requires MathHasNoTag(t)
    ensures Tokens(Html(t) + rest) == TokensOf(t) + Tokens(rest)
    decreases t, 1
  {
    if FrameOf(t).NoTag? {
      InsideIsRead(t, rest);
    } else {
      InsideIsRead(t, CloseTag(FrameOf(t).tag) + rest);
      FrameIsRead(t, rest);
    }
  }

  lemma {:induction false} FrameIsRead(t: RichText, rest: string)
    requires FrameOf(t).Element?
    ensures var close := CloseTag(FrameOf(t).tag) + rest;
            Tokens(Inside(t) + close) == InsideTokens(t) + Tokens(close) ==>
              Tokens(Html(t) + rest) == TokensOf(t) + Tokens(rest)
  {
    hide Tokens, FrameOf, InsideTokens, Html, Inside, CloseTag, Opening;
    var f := FrameOf(t);
    var close := CloseTag(f.tag) + rest;
    FramesAreFrames(t);
    FramedHtml(t, rest);
    OpeningIsRead(f, Inside(t) + close);
    ClosingIsRead(f.tag, rest);
    hide IsFrame;
    assert TokensOf(t) == [Tag(Opening(f))] + InsideTokens(t) + [Tag("/" + f.tag)];
  }

  lemma {:induction false} InsideIsRead(t: RichText, rest: string)
    requires MathHasNoTag(t)
    ensures Tokens(Inside(t) + rest) == InsideTokens(t) + Tokens(rest)
    decreases t, 0
  {
    hide Html, TokensOf;
    match t
    case Absent | Anchor(_) => assert Inside(t) + rest == rest;
    case Plain(text) =>
      EscapedHasNoTag(text);
      TextIsRead(EscapeHTML(text), rest);
    case Sequence(spans) => AllIsRead(spans, rest);
    case CustomEmoji(_, alternative) =>
      EscapedHasNoTag(alternative);
      TextIsRead(EscapeHTML(alternative), rest);
    case MathExpression(expression) => TextIsRead(expression, rest);
    case _ => HtmlIsRead(t.inner, rest);
  }

  lemma {:induction false} AllIsRead(spans: seq<RichText>, rest: string)
    requires forall s | s in spans :: MathHasNoTag(s)
    ensures Tokens(HtmlAll(spans) + rest) == TokensOfAll(spans) + Tokens(rest)
    decreases spans
  {
    if spans == [] {
      assert HtmlAll(spans) + rest == rest;
    } else {
      var k := |spans| - 1;
      hide Html, TokensOf, Tokens, MathHasNoTag;
      Associative(HtmlAll(spans[..k]), Html(spans[k]), rest);
      AllIsRead(spans[..k], Html(spans[k]) + rest);
      HtmlIsRead(spans[k], rest);
      Associative(TokensOfAll(spans[..k]), TokensOf(spans[k]), Tokens(rest));
    }
  }

  // --------------------------------------------------------------------------
  // The text

  lemma {:induction false} TextOfFirst(token: Token, rest: seq<Token>)
    ensures TextOf([token] + rest) == if token.Letter? then [token.c] + TextOf(rest) else TextOf(rest)
  {
    assert ([token] + rest)[1..] == rest;
  }

  lemma {:induction false} FirstChar(s: string, rest: seq<Token>)
    requires s != ""
    ensures Chars(s) + rest == [Letter(s[0])] + (Chars(s[1..]) + rest)
  {
  }

  lemma {:induction false} TextOfChars(s: string, rest: seq<Token>)
    ensures TextOf(Chars(s) + rest) == s + TextOf(rest)
  {
    if s == "" {
      assert Chars(s) + rest == rest;
    } else {
      hide TextOf, Chars;
      TextOfChars(s[1..], rest);
      FirstChar(s, rest);
      TextOfFirst(Letter(s[0]), Chars(s[1..]) + rest);
      FirstAndRest(s, TextOf(rest));
    }
  }

  lemma {:induction false} StartsDiffer(s: string, prefix: string, k: nat)
    requires k < |s| && k < |prefix| && s[k] != prefix[k]
    ensures !HasPrefix(s, prefix)
  {
    if |prefix| <= |s| {
      assert s[..|prefix|][k] == s[k];
    }
  }

  lemma {:induction false} StartsSame(prefix: string, rest: string)
    ensures HasPrefix(prefix + rest, prefix) && (prefix + rest)[|prefix|..] == rest
  {
  }

  lemma {:induction false} UnescapeOther(c: char, rest: string)
    requires c != '&'
    ensures Unescape([c] + rest) == [c] + Unescape(rest)
  {
    var s := [c] + rest;
    StartsDiffer(s, "&amp;", 0);
    StartsDiffer(s, "&lt;", 0);
    StartsDiffer(s, "&gt;", 0);
    StartsDiffer(s, "&quot;", 0);
    assert s[1..] == rest;
  }

  lemma {:induction false} UnescapeEntity(rest: string)
    ensures Unescape("&amp;" + rest) == "&" + Unescape(rest)
    ensures Unescape("&lt;" + rest) == "<" + Unescape(rest)
    ensures Unescape("&gt;" + rest) == ">" + Unescape(rest)
    ensures Unescape("&quot;" + rest) == "\"" + Unescape(rest)
  {
    StartsSame("&amp;", rest);
    StartsSame("&lt;", rest);
    StartsSame("&gt;", rest);
    StartsSame("&quot;", rest);
    StartsDiffer("&lt;" + rest, "&amp;", 1);
    StartsDiffer("&gt;" + rest, "&amp;", 1);
    StartsDiffer("&gt;" + rest, "&lt;", 1);
    StartsDiffer("&quot;" + rest, "&amp;", 1);
    StartsDiffer("&quot;" + rest, "&lt;", 1);
    StartsDiffer("&quot;" + rest, "&gt;", 1);
    hide HasPrefix;
  }

  lemma {:induction false} UnescapeFirst(c: char, rest: string)
    ensures Unescape(EscapeChar(c) + rest) == [c] + Unescape(rest)
    ensures Unescape(AttrChar(c) + rest) == [c] + Unescape(rest)
  {
    hide Unescape;
    UnescapeEntity(rest);
    if c != '&' {
      UnescapeOther(c, rest);
    }
  }

  lemma {:induction false} FirstAndRest(s: string, x: string)
    requires s != ""
    ensures [s[0]] + (s[1..] + x) == s + x
  {
  }

  /** Undoing EscapeHTML, whatever follows. */
  lemma {:induction false} UnescapeEscaped(s: string, rest: string)
    ensures Unescape(EscapeHTML(s) + rest) == s + Unescape(rest)
  {
    if s == "" {
      assert EscapeHTML(s) + rest == rest;
    } else {
      hide Unescape, EscapeChar;
      var e := EscapeHTML(s[1..]);
      assert EscapeHTML(s) == EscapeChar(s[0]) + e;
      hide EscapeHTML;
      assert EscapeChar(s[0]) + e + rest == EscapeChar(s[0]) + (e + rest);
      UnescapeFirst(s[0], e + rest);
      UnescapeEscaped(s[1..], rest);
      FirstAndRest(s, Unescape(rest));
    }
  }

  lemma {:induction false} UnescapeAttr(s: string)
    ensures Unescape(HtmlAttr(s)) == s
  {
    if s != "" {
      UnescapeFirst(s[0], HtmlAttr(s[1..]));
      UnescapeAttr(s[1..]);
      assert s == [s[0]] + s[1..];
    }
  }

  lemma {:induction false} UnescapeRaw(s: string, rest: string)
    requires Lacks(s, '&')
    ensures Unescape(s + rest) == s + Unescape(rest)
  {
    if s == "" {
      assert s + rest == rest;
    } else {
      hide Unescape;
      FirstAndRest(s, rest);
      UnescapeOther(s[0], s[1..] + rest);
      UnescapeRaw(s[1..], rest);
      FirstAndRest(s, Unescape(rest));
    }
  }

  lemma {:induction false} FramedTokens(t: RichText, rest: seq<Token>)
    requires FrameOf(t).Element?
    ensures var f := FrameOf(t);
            TokensOf(t) + rest == [Tag(Opening(f))] + (InsideTokens(t) + ([Tag("/" + f.tag)] + rest))
  {
    hide FrameOf, InsideTokens;
  }

  // --------------------------------------------------------------------------
  // The tags

  lemma {:induction false} NameEndsAtSpace(name: string, rest: string)
    requires Lacks(name, ' ') && (rest == "" || rest[0] == ' ')
    ensures NameOf(name + rest) == name
  {
    if name == "" {
      assert name + rest == rest;
    } else {
      NameEndsAtSpace(name[1..], rest);
      assert (name + rest)[1..] == name[1..] + rest;
    }
  }

  lemma {:induction false} BalancedFirst(token: Token, rest: seq<Token>, open: seq<string>)
    ensures Balanced([token] + rest, open)
            <==> if token.Letter? then Balanced(rest, open)
                 else if token.body != "" && token.body[0] == '/' then
                   open != [] && open[0] == token.body[1..] && Balanced(rest, open[1..])
                 else Balanced(rest, [NameOf(token.body)] + open)
  {
    assert ([token] + rest)[1..] == rest;
  }

  lemma {:induction false} CharsAreBalanced(s: string, rest: seq<Token>, open: seq<string>)
    ensures Balanced(Chars(s) + rest, open) <==> Balanced(rest, open)
  {
    if s == "" {
      assert Chars(s) + rest == rest;
    } else {
      hide Balanced, Chars;
      CharsAreBalanced(s[1..], rest, open);
      FirstChar(s, rest);
      BalancedFirst(Letter(s[0]), Chars(s[1..]) + rest, open);
    }
  }

  lemma {:induction false} TreeIsBalanced(t: RichText, rest: seq<Token>, open: seq<string>)
    ensures Balanced(TokensOf(t) + rest, open) <==> Balanced(rest, open)
    decreases t, 1
  {
    var f := FrameOf(t);
    if f.NoTag? {
      InsideIsBalanced(t, rest, open);
    } else {
      var close := [Tag("/" + f.tag)] + rest;
      FramesAreFrames(t);
      NameEndsAtSpace(f.tag, AttributesText(f.attributes));
      InsideIsBalanced(t, close, [f.tag] + open);
      FramedTokens(t, rest);
      hide FrameOf, InsideTokens, TokensOf, Balanced;
      BalancedFirst(Tag(Opening(f)), InsideTokens(t) + close, open);
      BalancedFirst(Tag("/" + f.tag), rest, [f.tag] + open);
      assert ("/" + f.tag)[1..] == f.tag && ([f.tag] + open)[1..] == open;
      assert Opening(f)[0] == f.tag[0];
    }
  }

  lemma {:induction false} InsideIsBalanced(t: RichText, rest: seq<Token>, open: seq<string>)
    ensures Balanced(InsideTokens(t) + rest, open) <==> Balanced(rest, open)
    decreases t, 0
  {
    hide TokensOf;
    match t
    case Absent | Anchor(_) => assert InsideTokens(t) + rest == rest;
    case Plain(text) => CharsAreBalanced(EscapeHTML(text), rest, open);
    case Sequence(spans) => TreesAreBalanced(spans, rest, open);
    case CustomEmoji(_, alternative) => CharsAreBalanced(EscapeHTML(alternative), rest, open);
    case MathExpression(expression) => CharsAreBalanced(expression, rest, open);
    case _ => TreeIsBalanced(t.inner, rest, open);
  }

  lemma {:induction false} TreesAreBalanced(spans: seq<RichText>, rest: seq<Token>, open: seq<string>)
    ensures Balanced(TokensOfAll(spans) + rest, open) <==> Balanced(rest, open)
    decreases spans
  {
    if spans == [] {
      assert TokensOfAll(spans) + rest == rest;
    } else {
      var k := |spans| - 1;
      hide TokensOf, Balanced;
      Associative(TokensOfAll(spans[..k]), TokensOf(spans[k]), rest);
      TreesAreBalanced(spans[..k], TokensOf(spans[k]) + rest, open);
      TreeIsBalanced(spans[k], rest, open);
    }
  }

  /** Every tag written is closed, in order. */
  lemma {:induction false} HtmlIsBalanced(t: RichText)
    requires MathHasNoTag(t)
    ensures Balanced(Tokens(Html(t)), [])
  {
    assert Html(t) + "" == Html(t) && TokensOf(t) + [] == TokensOf(t);
    HtmlIsRead(t, "");
    TreeIsBalanced(t, [], []);
  }

  // --------------------------------------------------------------------------
  // The attributes

  lemma {:induction false} IndexIsPast(a: string, c: char, rest: string)
    requires Lacks(a, c)
    ensures Index(a + rest, c) == |a| + Index(rest, c)
  {
    if a == "" {
      assert a + rest == rest;
    } else {
      IndexIsPast(a[1..], c, rest);
      assert (a + rest)[1..] == a[1..] + rest;
    }
  }

  /** The first quoted value of a text. */
  lemma {:induction false} FirstValue(before: string, value: string, rest: string)
    requires Lacks(before, '"') && Lacks(value, '"')
    ensures Values(before + "\"" + value + "\"" + rest) == [Unescape(value)] + Values(rest)
  {
    var s := before + "\"" + value + "\"" + rest;
    var after := value + ("\"" + rest);
    assert s == before + ("\"" + after);
    assert Index(s, '"') == |before| by {
      IndexIsPast(before, '"', "\"" + after);
    }
    assert s[|before| + 1..] == after;
    assert Index(after, '"') == |value| by {
      IndexIsPast(value, '"', "\"" + rest);
    }
    hide Index, Unescape;
    assert after[..|value|] == value && after[|value| + 1..] == rest;
  }

  lemma {:induction false} ValueOfAttribute(name: string, a: Attribute, rest: string)
    requires IsAttribute(a) && Lacks(name, '"')
    ensures Values(name + AttributeText(a) + rest) == [a.fixed + a.value] + Values(rest)
  {
    var before, value := name + " " + a.name + "=", a.fixed + HtmlAttr(a.value);
    AttrHasNoQuote(a.value);
    assert name + AttributeText(a) + rest == before + "\"" + value + "\"" + rest;
    FirstValue(before, value, rest);
    UnescapeRaw(a.fixed, HtmlAttr(a.value));
    UnescapeAttr(a.value);
  }

  lemma {:induction false} ValuesOfAttributes(name: string, attributes: seq<Attribute>)
    requires Lacks(name, '"') && forall a | a in attributes :: IsAttribute(a)
    ensures Values(name + AttributesText(attributes)) == FullValues(attributes)
    decreases attributes
  {
    if attributes == [] {
      assert name + AttributesText(attributes) == name + "" == name;
      IndexIsPast(name, '"', "");
    } else {
      var tail := AttributesText(attributes[1..]);
      hide IsAttribute;
      assert name + AttributesText(attributes) == name + AttributeText(attributes[0]) + tail;
      ValueOfAttribute(name, attributes[0], tail);
      ValuesOfAttributes("", attributes[1..]);
      assert "" + tail == tail;
    }
  }

  lemma {:induction false} ValuesOfFirst(token: Token, rest: seq<Token>)
    ensures AllValues([token] + rest) == if token.Tag? then Values(token.body) + AllValues(rest) else AllValues(rest)
  {
    assert ([token] + rest)[1..] == rest;
  }

  lemma {:induction false} CharsHaveNoValues(s: string, rest: seq<Token>)
    ensures AllValues(Chars(s) + rest) == AllValues(rest)
  {
    if s == "" {
      assert Chars(s) + rest == rest;
    } else {
      hide AllValues, Chars;
      CharsHaveNoValues(s[1..], rest);
      FirstChar(s, rest);
      ValuesOfFirst(Letter(s[0]), Chars(s[1..]) + rest);
    }
  }

  lemma {:induction false} NoValuesInClosing(tag: string)
    requires IsName(tag)
    ensures Values("/" + tag) == []
  {
    ValuesOfAttributes("/" + tag, []);
    assert "/" + tag + "" == "/" + tag;
  }

  lemma {:induction false} ValuesOfTree(t: RichText, rest: seq<Token>)
    ensures AllValues(TokensOf(t) + rest) == ValuesOf(t) + AllValues(rest)
    decreases t, 1
  {
    var f := FrameOf(t);
    if f.NoTag? {
      ValuesOfInside(t, rest);
    } else {
      ValuesOfInside(t, [Tag("/" + f.tag)] + rest);
      ValuesInFrame(t, rest);
    }
  }

  lemma {:induction false} ValuesInFrame(t: RichText, rest: seq<Token>)
    requires FrameOf(t).Element?
    ensures var close := [Tag("/" + FrameOf(t).tag)] + rest;
            AllValues(InsideTokens(t) + close) == InsideValues(t) + AllValues(close) ==>
              AllValues(TokensOf(t) + rest) == ValuesOf(t) + AllValues(rest)
  {
    hide AllValues, InsideTokens, InsideValues, FrameOf, Values, TokensOf;
    var f := FrameOf(t);
    var close := [Tag("/" + f.tag)] + rest;
    FramedTokens(t, rest);
    FramesAreFrames(t);
    assert Values(Opening(f)) == FullValues(f.attributes) by {
      ValuesOfAttributes(f.tag, f.attributes);
    }
    NoValuesInClosing(f.tag);
    hide IsFrame, FullValues, Opening;
    ValuesOfFirst(Tag(Opening(f)), InsideTokens(t) + close);
    ValuesOfFirst(Tag("/" + f.tag), rest);
    assert [] + AllValues(rest) == AllValues(rest);
  }

  lemma {:induction false} ValuesOfInside(t: RichText, rest: seq<Token>)
    ensures AllValues(InsideTokens(t) + rest) == InsideValues(t) + AllValues(rest)
    decreases t, 0
  {
    hide TokensOf;
    match t
    case Absent | Anchor(_) => assert InsideTokens(t) + rest == rest;
    case Plain(text) => CharsHaveNoValues(EscapeHTML(text), rest);
    case Sequence(spans) => ValuesOfTrees(spans, rest);
    case CustomEmoji(_, alternative) => CharsHaveNoValues(EscapeHTML(alternative), rest);
    case MathExpression(expression) => CharsHaveNoValues(expression, rest);
    case _ => ValuesOfTree(t.inner, rest);
  }

  lemma {:induction false} ValuesOfTrees(spans: seq<RichText>, rest: seq<Token>)
    ensures AllValues(TokensOfAll(spans) + rest) == ValuesOfAll(spans) + AllValues(rest)
    decreases spans
  {
    if spans == [] {
      assert TokensOfAll(spans) + rest == rest;
    } else {
      var k := |spans| - 1;
      hide TokensOf, ValuesOf, AllValues;
      Associative(TokensOfAll(spans[..k]), TokensOf(spans[k]), rest);
      ValuesOfTrees(spans[..k], TokensOf(spans[k]) + rest);
      ValuesOfTree(spans[k], rest);
      Associative(ValuesOfAll(spans[..k]), ValuesOf(spans[k]), AllValues(rest));
    }
  }

  /** Whatever is in the names and addresses, a reader gets each back whole, in order, and nothing else. */
  lemma {:induction false} AttributesReadBack(t: RichText)
    requires MathHasNoTag(t)
    ensures AllValues(Tokens(Html(t))) == ValuesOf(t)
  {
    assert Html(t) + "" == Html(t) && TokensOf(t) + [] == TokensOf(t);
    HtmlIsRead(t, "");
    ValuesOfTree(t, []);
    assert ValuesOf(t) + [] == ValuesOf(t);
  }
}
