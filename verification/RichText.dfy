/**
 Rich text (richmessage_builder.go, richmessage_reader.go): a tree of text spans, its HTML, and its plain text.
 Messages are sequences of characters; the tree is finite.
 */
module RichText {
  import opened Options
  import opened Strings
  import opened Decimal

  datatype TextStyle = Bold | Italic | Underline | Strikethrough | Spoiler | Code | Marked | Subscript | Superscript

  /** Spans that the receiver detects by itself, so no tag is written for them. */
  datatype Detected = ReferenceLink | Mention | Hashtag | Cashtag | BotCommand | BankCardNumber

  datatype RichText =
    | Absent
    | Plain(text: string)
    | Sequence(spans: seq<RichText>)
    | InStyle(style: TextStyle, inner: RichText)
    | CustomEmoji(id: string, alternative: string)
    | MathExpression(expression: string)
    | Url(url: string, inner: RichText)
    | Email(address: string, inner: RichText)
    | Phone(number: string, inner: RichText)
    | TextMention(user: Option<int>, inner: RichText)
    | AnchorLink(name: string, inner: RichText)
    | Anchor(name: string)
    | Reference(name: string, inner: RichText)
    | DateTime(unixTime: int, format: string, inner: RichText)
    | OfKind(kind: Detected, inner: RichText)

  // --------------------------------------------------------------------------
  // Escaping

  function EscapeChar(c: char): string {
    if c == '&' then "&amp;" else if c == '<' then "&lt;" else if c == '>' then "&gt;" else [c]
  }

  function EscapeHTML(s: string): string {
    if s == "" then "" else EscapeChar(s[0]) + EscapeHTML(s[1..])
  }

  function AttrChar(c: char): string {
    if c == '&' then "&amp;" else if c == '"' then "&quot;" else [c]
  }

  function HtmlAttr(s: string): string {
    if s == "" then "" else AttrChar(s[0]) + HtmlAttr(s[1..])
  }

  // --------------------------------------------------------------------------
  // What is written: a frame of tags around an inside

  /** An attribute whose value is fixed text followed by a value of the span's own. */
  datatype Attribute = Attribute(name: string, fixed: string, value: string)

  datatype Frame = NoTag | Element(tag: string, attributes: seq<Attribute>)

  function StyleTag(style: TextStyle): string {
    match style
    case Bold => "b"
    case Italic => "i"
    case Underline => "u"
    case Strikethrough => "s"
    case Spoiler => "tg-spoiler"
    case Code => "code"
    case Marked => "mark"
    case Subscript => "sub"
    case Superscript => "sup"
  }

  function FrameOf(t: RichText): Frame {
    match t
    case Absent | Plain(_) | Sequence(_) | OfKind(_, _) => NoTag
    case InStyle(style, _) => Element(StyleTag(style), [])
    case CustomEmoji(id, _) => Element("tg-emoji", [Attribute("emoji-id", "", id)])
    case MathExpression(_) => Element("tg-math", [])
    case Url(url, _) => Element("a", [Attribute("href", "", url)])
    case Email(address, _) => Element("a", [Attribute("href", "mailto:", address)])
    case Phone(number, _) => Element("a", [Attribute("href", "tel:", number)])
    case TextMention(user, _) => Element("a", [Attribute("href", "tg://user?id=", IntString(UserID(user)))])
    case AnchorLink(name, _) => Element("a", [Attribute("href", "#", name)])
    case Anchor(name) => Element("a", [Attribute("name", "", name)])
    case Reference(name, _) => Element("tg-reference", [Attribute("name", "", name)])
    case DateTime(time, format, _) =>
      Element("tg-time", [Attribute("unix", "", IntString(time)), Attribute("format", "", format)])
  }

  function UserID(user: Option<int>): int {
    if user.Some? then user.value else 0
  }

  function Attr(name: string, value: string): string {
    " " + name + "=\"" + value + "\""
  }

  function AttributeText(a: Attribute): string {
    Attr(a.name, a.fixed + HtmlAttr(a.value))
  }

  function AttributesText(attributes: seq<Attribute>): string {
    if attributes == [] then "" else AttributeText(attributes[0]) + AttributesText(attributes[1..])
  }

  /** What stands between < and > of the opening tag. */
  function Opening(f: Frame): string
    requires f.Element?
  {
    f.tag + AttributesText(f.attributes)
  }

  function OpenTag(tag: string, attrs: string): string {
    "<" + tag + attrs + ">"
  }

  function CloseTag(tag: string): string {
    "</" + tag + ">"
  }

  function InFrame(f: Frame, inside: string): string {
    if f.NoTag? then inside else "<" + Opening(f) + ">" + inside + CloseTag(f.tag)
  }

  function Html(t: RichText): string
    decreases t, 1
  {
    InFrame(FrameOf(t), Inside(t))
  }

  function Inside(t: RichText): string
    decreases t, 0
  {
    match t
    case Absent | Anchor(_) => ""
    case Plain(text) => EscapeHTML(text)
    case Sequence(spans) => HtmlAll(spans)
    case CustomEmoji(_, alternative) => EscapeHTML(alternative)
    case MathExpression(expression) => expression
    case _ => Html(t.inner)
  }

  function HtmlAll(spans: seq<RichText>): string
    decreases spans
  {
    if spans == [] then "" else HtmlAll(spans[..|spans| - 1]) + Html(spans[|spans| - 1])
  }

  // --------------------------------------------------------------------------
  // The renderer

  class Builder {
    var text: string

    constructor ()
      ensures text == ""
    {
      text := "";
    }

    method Write(s: string)
      modifies this
      ensures text == old(text) + s
    {
      text := text + s;
    }
  }

  method WrapText(sb: Builder, tag: string, attrs: string, inner: RichText)
    modifies sb
    ensures sb.text == old(sb.text) + OpenTag(tag, attrs) + Html(inner) + CloseTag(tag)
    decreases inner, 1
  {
    hide Html;
    sb.Write("<");
    sb.Write(tag);
    sb.Write(attrs);
    sb.Write(">");
    RenderRichText(sb, inner);
    sb.Write("</");
    sb.Write(tag);
    sb.Write(">");
  }

  method RenderRichText(sb: Builder, t: RichText)
    modifies sb
    ensures sb.text == old(sb.text) + Html(t)
    decreases t, 0
  {
    hide AttributesText, Attr, OpenTag, CloseTag, IntString, EscapeHTML, HtmlAttr, StyleTag, InFrame;
    ghost var start := sb.text;
    match t
    case Absent => assert Html(t) == "" by { NotFramed(t); }
    case Plain(text) =>
      sb.Write(EscapeHTML(text));
      NotFramed(t);
    case Sequence(spans) =>
      for i := 0 to |spans|
        invariant sb.text == start + HtmlAll(spans[..i])
      {
        assert spans[..i + 1][..i] == spans[..i];
        RenderRichText(sb, spans[i]);
      }
      assert spans[..|spans|] == spans;
      NotFramed(t);
    case InStyle(style, inner) =>
      WrapText(sb, StyleTag(style), "", inner);
      BareElement(t, start);
    case CustomEmoji(id, alternative) =>
      sb.Write(OpenTag("tg-emoji", Attr("emoji-id", HtmlAttr(id))));
      sb.Write(EscapeHTML(alternative));
      sb.Write(CloseTag("tg-emoji"));
      ElementWith(t, Attribute("emoji-id", "", id), HtmlAttr(id), start);
    case MathExpression(expression) =>
      sb.Write(OpenTag("tg-math", ""));
      sb.Write(expression);
      sb.Write(CloseTag("tg-math"));
      BareElement(t, start);
    case Url(url, inner) =>
      WrapText(sb, "a", Attr("href", HtmlAttr(url)), inner);
      ElementWith(t, Attribute("href", "", url), HtmlAttr(url), start);
    case Email(address, inner) =>
      WrapText(sb, "a", Attr("href", "mailto:" + HtmlAttr(address)), inner);
      ElementWith(t, Attribute("href", "mailto:", address), "mailto:" + HtmlAttr(address), start);
    case Phone(number, inner) =>
      WrapText(sb, "a", Attr("href", "tel:" + HtmlAttr(number)), inner);
      ElementWith(t, Attribute("href", "tel:", number), "tel:" + HtmlAttr(number), start);
    case TextMention(user, inner) =>
      var userID := 0;
      if user.Some? {
        userID := user.value;
      }
      WrapText(sb, "a", Attr("href", "tg://user?id=" + IntString(userID)), inner);
      NumbersNeedNoEscape(userID);
      ElementWith(t, Attribute("href", "tg://user?id=", IntString(userID)), "tg://user?id=" + IntString(userID), start);
    case AnchorLink(name, inner) =>
      WrapText(sb, "a", Attr("href", "#" + HtmlAttr(name)), inner);
      ElementWith(t, Attribute("href", "#", name), "#" + HtmlAttr(name), start);
    case Anchor(name) =>
      sb.Write(OpenTag("a", Attr("name", HtmlAttr(name))));
      sb.Write(CloseTag("a"));
      ElementWith(t, Attribute("name", "", name), HtmlAttr(name), start);
    case Reference(name, inner) =>
      sb.Write(OpenTag("tg-reference", Attr("name", HtmlAttr(name))));
      RenderRichText(sb, inner);
      sb.Write(CloseTag("tg-reference"));
      ElementWith(t, Attribute("name", "", name), HtmlAttr(name), start);
    case DateTime(unixTime, format, inner) =>
      sb.Write(OpenTag("tg-time", Attr("unix", IntString(unixTime)) + Attr("format", HtmlAttr(format))));
      RenderRichText(sb, inner);
      sb.Write(CloseTag("tg-time"));
      TimeElement(t, start);
    case OfKind(_, inner) =>
      RenderRichText(sb, inner);
      NotFramed(t);
  }

  lemma NotFramed(t: RichText)
    requires FrameOf(t).NoTag?
    ensures Html(t) == Inside(t)
  {
  }

  /** Writing opening tag, inside and closing tag one after the other writes the element. */
  lemma ElementIsWritten(t: RichText, attrs: string, start: string)
    requires FrameOf(t).Element? && AttributesText(FrameOf(t).attributes) == attrs
    ensures start + OpenTag(FrameOf(t).tag, attrs) + Inside(t) + CloseTag(FrameOf(t).tag) == start + Html(t)
  {
    var f := FrameOf(t);
    hide FrameOf, Inside, AttributesText;
    assert OpenTag(f.tag, attrs) == "<" + Opening(f) + ">";
  }

  lemma BareElement(t: RichText, start: string)
    requires FrameOf(t).Element? && FrameOf(t).attributes == []
    ensures start + OpenTag(FrameOf(t).tag, "") + Inside(t) + CloseTag(FrameOf(t).tag) == start + Html(t)
  {
    ElementIsWritten(t, "", start);
  }

  lemma ElementWith(t: RichText, a: Attribute, value: string, start: string)
    requires FrameOf(t).Element? && FrameOf(t).attributes == [a] && a.fixed + HtmlAttr(a.value) == value
    ensures start + OpenTag(FrameOf(t).tag, Attr(a.name, value)) + Inside(t) + CloseTag(FrameOf(t).tag) == start + Html(t)
  {
    hide FrameOf, Inside, HtmlAttr, Attr;
    assert [a][1..] == [];
    ElementIsWritten(t, Attr(a.name, value), start);
  }

  lemma TimeElement(t: RichText, start: string)
    requires t.DateTime?
    ensures start + OpenTag("tg-time", Attr("unix", IntString(t.unixTime)) + Attr("format", HtmlAttr(t.format)))
            + Html(t.inner) + CloseTag("tg-time")
            == start + Html(t)
  {
    var a, b := Attribute("unix", "", IntString(t.unixTime)), Attribute("format", "", t.format);
    TwoAttributes(a, b);
    ElementIsWritten(t, AttributeText(a) + AttributeText(b), start);
    NumbersNeedNoEscape(t.unixTime);
    hide HtmlAttr, IntString, OpenTag, CloseTag, Html, Attr;
    assert "" + HtmlAttr(t.format) == HtmlAttr(t.format);
    assert "" + IntString(t.unixTime) == IntString(t.unixTime);
  }

  lemma TwoAttributes(a: Attribute, b: Attribute)
    ensures AttributesText([a, b]) == AttributeText(a) + AttributeText(b)
  {
    hide AttributeText;
    assert [a, b][1..] == [b] && [b][1..] == [];
    assert AttributesText([b]) == AttributeText(b) + "";
  }

  lemma {:induction false} NothingToEscape(s: string)
    requires Lacks(s, '&') && Lacks(s, '"')
    ensures HtmlAttr(s) == s
  {
    if s != "" {
      NothingToEscape(s[1..]);
    }
  }

  lemma NumbersNeedNoEscape(n: int)
    ensures HtmlAttr(IntString(n)) == IntString(n)
  {
    IntStringLacks(n, '&');
    IntStringLacks(n, '"');
    NothingToEscape(IntString(n));
  }

  // --------------------------------------------------------------------------
  // The reader

  /** The words of the tree. */
  function PlainText(t: RichText): string {
    match t
    case Absent | Anchor(_) => ""
    case Plain(text) => text
    case Sequence(spans) => PlainTextAll(spans)
    case CustomEmoji(_, alternative) => alternative
    case MathExpression(expression) => expression
    case _ => PlainText(t.inner)
  }

  function PlainTextAll(spans: seq<RichText>): string {
    if spans == [] then "" else PlainTextAll(spans[..|spans| - 1]) + PlainText(spans[|spans| - 1])
  }

  function Concat(parts: seq<string>): string {
    if parts == [] then "" else Concat(parts[..|parts| - 1]) + parts[|parts| - 1]
  }

  method RichTextPlainText(t: RichText) returns (s: string)
    ensures s == PlainText(t)
  {
    match t
    case Absent => return "";
    case Plain(text) => return text;
    case Sequence(spans) =>
      var parts := [];
      for i := 0 to |spans|
        invariant Concat(parts) == PlainTextAll(spans[..i])
      {
        assert spans[..i + 1][..i] == spans[..i];
        var part := RichTextPlainText(spans[i]);
        assert (parts + [part])[..|parts|] == parts;
        parts := parts + [part];
      }
      assert spans[..|spans|] == spans;
      return Concat(parts);
    case CustomEmoji(_, alternative) => return alternative;
    case MathExpression(expression) => return expression;
    case Anchor(_) => return "";
    case _ => s := RichTextPlainText(t.inner);
  }
}
