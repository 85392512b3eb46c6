/**
 Rendered rich text read character by character (richmessage_builder.go), from text or from inside a tag: an expression
 that starts a tag, wherever it stands in a tree, keeps the plain text from being read back. The proof goes through the
 HTML from its end, with a claim about what can be read of the rest from every mode.
 */
module RichTextScan {
  import opened Strings
  import opened RichText
  import opened RichTextTheorems
  import opened RichTextReferences

  /** What a reader of the HTML makes of it. */
  function ReadBack(html: string): string {
    Unescape(TextOf(Tokens(html)))
  }

  // --------------------------------------------------------------------------
  // The reader as a scanner

  datatype Mode = InText | InTag(quoted: bool)

  function After(c: char, m: Mode): Mode {
    match m
    case InText => if c == '<' then InTag(false) else InText
    case InTag(quoted) => if c == '>' && !quoted then InText else InTag(if c == '"' then !quoted else quoted)
  }

  /** The characters outside tags, when the reader starts in a mode. */
  function Emitted(s: string, m: Mode): string {
    if s == "" then ""
    else if m == InText && s[0] != '<' then [s[0]] + Emitted(s[1..], InText)
    else Emitted(s[1..], After(s[0], m))
  }

  lemma EmittedFirst(c: char, s: string, m: Mode)
    ensures Emitted([c] + s, m)
            == if m == InText && c != '<' then [c] + Emitted(s, InText) else Emitted(s, After(c, m))
  {
    assert ([c] + s)[1..] == s;
  }

  lemma {:induction false} EmittedInTag(s: string, quoted: bool)
    ensures var k := TagEnd(s, quoted);
            Emitted(s, InTag(quoted)) == if k < |s| then Emitted(s[k + 1..], InText) else ""
  {
    if s != "" && (s[0] != '>' || quoted) {
      EmittedInTag(s[1..], if s[0] == '"' then !quoted else quoted);
      var k := TagEnd(s[1..], if s[0] == '"' then !quoted else quoted);
      assert k < |s[1..]| ==> s[1..][k + 1..] == s[k + 2..];
    }
  }

  /** What follows the tag that a text begins with. */
  function AfterTag(s: string): (rest: string)
    requires s != "" && s[0] == '<'
    ensures |rest| < |s|
  {
    var tail := s[1..];
    var k := TagEnd(tail, false);
    if k < |tail| then tail[k + 1..] else ""
  }

  lemma {:induction false} TagIsSkipped(s: string)
    requires s != "" && s[0] == '<'
    ensures Emitted(s, InText) == Emitted(AfterTag(s), InText)
  {
    assert Emitted(s, InText) == Emitted(s[1..], InTag(false));
    hide TagEnd;
    EmittedInTag(s[1..], false);
    assert Emitted("", InText) == "";
    hide Emitted;
  }

  lemma {:induction false} TagIsFirst(s: string) returns (body: string)
    requires s != "" && s[0] == '<'
    ensures Tokens(s) == [Tag(body)] + Tokens(AfterTag(s))
  {
    var k := TagEnd(s[1..], false);
    body := s[1..k + 1];
    hide TagEnd;
    assert k < |s[1..]| ==> s[1..][k + 1..] == s[k + 2..];
  }

  lemma {:induction false} TextIsEmitted(s: string)
    ensures TextOf(Tokens(s)) == Emitted(s, InText)
    decreases |s|
  {
    hide TextOf, TagEnd;
    if s == "" {
      NoText();
    } else if s[0] != '<' {
      TextIsEmitted(s[1..]);
      TextOfFirst(Letter(s[0]), Tokens(s[1..]));
    } else {
      hide Tokens, Emitted;
      TagIsSkipped(s);
      var body := TagIsFirst(s);
      TextOfFirst(Tag(body), Tokens(AfterTag(s)));
      TextIsEmitted(AfterTag(s));
    }
  }

  lemma NoText()
    ensures TextOf([]) == ""
  {
  }

  function Read(s: string, m: Mode): string {
    Unescape(Emitted(s, m))
  }

  // --------------------------------------------------------------------------
  // An expression that starts a tag

  /**
   What the rest of a message, read from a mode on, can be against the rest of its plain text: in a tag, whatever is
   read in addition has no < in it; in text, nothing is read in addition; and after an expression that started a tag,
   the plain text is not read at all.
   */
  predicate Tagged(plain: string, read: string) {
    EndsWith(read, plain) ==> forall i | 0 <= i < |read| - |plain| :: read[i] != '<'
  }

  predicate Behind(plain: string, read: string, lost: bool) {
    EndsWith(read, plain) ==> !lost && |read| == |plain|
  }

  ghost predicate AllTagged(html: string, plain: string) {
    forall m :: Tagged(plain, Read(html, m))
  }

  ghost predicate Claims(html: string, plain: string, lost: bool) {
    AllTagged(html, plain) && Behind(plain, Read(html, InText), lost)
  }

  lemma TaggedAfterChar(c: char, plain: string, read: string)
    requires Tagged(plain, read) && c != '<'
    ensures Tagged(plain, [c] + read)
  {
    var all := [c] + read;
    if EndsWith(all, plain) && |all| > |plain| {
      assert all[|all| - |plain|..] == read[|read| - |plain|..];
      assert forall i | 1 <= i < |all| :: all[i] == read[i - 1];
    }
  }

  lemma TaggedLonger(s: string, plain: string, read: string)
    requires Tagged(plain, read)
    ensures Tagged(s + plain, read)
  {
    if EndsWith(read, s + plain) {
      assert read[|read| - |plain|..] == (s + plain)[|s|..];
    }
  }

  /** Reading a character of markup, whatever the mode: nothing that matters is read. */
  lemma MarkupChar(c: char, html: string, plain: string)
    requires AllTagged(html, plain) && c != '&'
    ensures AllTagged([c] + html, plain)
  {
    hide Tagged, Unescape, Emitted;
    var all := [c] + html;
    forall m ensures Tagged(plain, Read(all, m)) {
      assert Tagged(plain, Read(html, After(c, m)));
      EmittedFirst(c, html, m);
      if m == InText && c != '<' {
        UnescapeOther(c, Emitted(html, InText));
        TaggedAfterChar(c, plain, Read(html, InText));
      }
    }
  }

  lemma {:induction false} MarkupChars(s: string, html: string, plain: string)
    requires AllTagged(html, plain) && Lacks(s, '&')
    ensures AllTagged(s + html, plain)
  {
    hide AllTagged;
    if s == "" {
      assert s + html == html;
    } else {
      MarkupChars(s[1..], html, plain);
      MarkupChar(s[0], s[1..] + html, plain);
      FirstAndRest(s, html);
    }
  }

  /** A stretch without < is emitted as it is in text, and without > not at all in a tag. */
  lemma {:induction false} EmittedStretch(s: string, html: string, m: Mode)
    requires Lacks(s, '<') && Lacks(s, '>')
    ensures m == InText ==> Emitted(s + html, m) == s + Emitted(html, InText)
    ensures m.InTag? ==> exists quoted :: Emitted(s + html, m) == Emitted(html, InTag(quoted))
    ensures m.InTag? && Lacks(s, '"') ==> Emitted(s + html, m) == Emitted(html, m)
  {
    if s == "" {
      assert s + html == html;
      assert m.InTag? ==> Emitted(s + html, m) == Emitted(html, InTag(m.quoted));
    } else {
      assert (s + html)[1..] == s[1..] + html;
      EmittedStretch(s[1..], html, After(s[0], m));
      if m == InText {
        FirstAndRest(s, Emitted(html, InText));
      }
    }
  }

  lemma AttrCharLacks(c: char)
    ensures AttrChar(c) == [c] || (Lacks(AttrChar(c), '<') && Lacks(AttrChar(c), '>') && Lacks(AttrChar(c), '"'))
  {
  }

  /** The same for a character of an attribute's value, as it is escaped. */
  lemma MarkupAttrChar(c: char, html: string, plain: string)
    requires AllTagged(html, plain)
    ensures AllTagged(AttrChar(c) + html, plain)
  {
    AttrCharLacks(c);
    if c != '&' && c != '"' {
      MarkupChar(c, html, plain);
    } else {
      hide Tagged, Unescape, Emitted, AttrChar, Lacks;
      var u := AttrChar(c);
      forall m ensures Tagged(plain, Read(u + html, m)) {
        assert Tagged(plain, Read(html, m));
        EmittedStretch(u, html, m);
        if m == InText {
          UnescapeFirst(c, Emitted(html, InText));
          TaggedAfterChar(c, plain, Read(html, InText));
        }
      }
    }
  }

  lemma {:induction false} MarkupAttr(v: string, html: string, plain: string)
    requires AllTagged(html, plain)
    ensures AllTagged(HtmlAttr(v) + html, plain)
  {
    hide AllTagged, AttrChar;
    if v == "" {
      assert HtmlAttr(v) + html == html;
    } else {
      MarkupAttr(v[1..], html, plain);
      MarkupAttrChar(v[0], HtmlAttr(v[1..]) + html, plain);
      Associative(AttrChar(v[0]), HtmlAttr(v[1..]), html);
    }
  }

  lemma MarkupAttribute(a: Attribute, html: string, plain: string)
    requires AllTagged(html, plain) && IsAttribute(a)
    ensures AllTagged(AttributeText(a) + html, plain)
  {
    hide AllTagged, HtmlAttr;
    var before, value := " " + a.name + "=\"" + a.fixed, HtmlAttr(a.value);
    assert Lacks(before, '&') by {
      assert Lacks(a.name, '&') && Lacks(a.fixed, '&');
    }
    assert Lacks("\"", '&');
    hide IsAttribute, Lacks;
    MarkupChars("\"", html, plain);
    MarkupAttr(a.value, "\"" + html, plain);
    MarkupChars(before, value + ("\"" + html), plain);
    assert AttributeText(a) + html == before + (value + ("\"" + html));
  }

  lemma {:induction false} MarkupAttributes(attributes: seq<Attribute>, html: string, plain: string)
    requires AllTagged(html, plain) && forall a | a in attributes :: IsAttribute(a)
    ensures AllTagged(AttributesText(attributes) + html, plain)
  {
    hide AllTagged, IsAttribute, AttributeText;
    if attributes == [] {
      assert AttributesText(attributes) + html == html;
    } else {
      var a, tail := attributes[0], AttributesText(attributes[1..]);
      MarkupAttributes(attributes[1..], html, plain);
      MarkupAttribute(a, tail + html, plain);
      Associative(AttributeText(a), tail, html);
    }
  }

  /** A whole tag in front: read from text it is dropped, and from inside another tag nothing that matters is read. */
  lemma OpeningKeepsClaims(f: Frame, html: string, plain: string, lost: bool)
    requires f.Element? && IsFrame(f) && Claims(html, plain, lost)
    ensures Claims("<" + Opening(f) + ">" + html, plain, lost)
  {
    var s := "<" + Opening(f) + ">" + html;
    assert AllTagged(s, plain) by {
      hide AllTagged, Unescape, Emitted, Behind;
      MarkupChars(">", html, plain);
      MarkupAttributes(f.attributes, ">" + html, plain);
      assert Lacks("<" + f.tag, '&');
      MarkupChars("<" + f.tag, AttributesText(f.attributes) + (">" + html), plain);
      hide AttributesText, IsFrame;
      assert s == "<" + f.tag + (AttributesText(f.attributes) + (">" + html));
    }
    hide AllTagged, Unescape, Emitted, Behind, Opening, TextOf, Tokens;
    OpeningIsRead(f, html);
    TextOfFirst(Tag(Opening(f)), Tokens(html));
    TextIsEmitted(s);
    TextIsEmitted(html);
  }

  lemma ClosingKeepsClaims(tag: string, html: string, plain: string, lost: bool)
    requires IsName(tag) && Claims(html, plain, lost)
    ensures Claims(CloseTag(tag) + html, plain, lost)
  {
    ClosingIsRead(tag, html);
    TextOfFirst(Tag("/" + tag), Tokens(html));
    TextIsEmitted(CloseTag(tag) + html);
    TextIsEmitted(html);
    MarkupChars(CloseTag(tag), html, plain);
    hide AllTagged, Unescape, Emitted, Behind, Tokens, TextOf, CloseTag;
  }

  lemma BehindLonger(s: string, plain: string, read: string, lost: bool)
    requires Behind(plain, read, lost)
    ensures Behind(s + plain, s + read, lost)
  {
    if EndsWith(s + read, s + plain) {
      assert (s + read)[|s + read| - |plain|..] == (s + plain)[|s|..];
      assert read[|read| - |plain|..] == (s + read)[|s + read| - |plain|..];
    }
  }

  lemma {:induction false} EscapedHasNoEnd(s: string)
    ensures Lacks(EscapeHTML(s), '>')
  {
    if s != "" {
      EscapedHasNoEnd(s[1..]);
    }
  }

  /** Escaped text in front: in a tag it is swallowed, in text it is read as it was. */
  lemma EscapedKeepsClaims(text: string, html: string, plain: string, lost: bool)
    requires Claims(html, plain, lost)
    ensures Claims(EscapeHTML(text) + html, text + plain, lost)
  {
    var e := EscapeHTML(text);
    EscapedHasNoTag(text);
    EscapedHasNoEnd(text);
    hide Tagged, Unescape, Emitted, Behind, EscapeHTML;
    UnescapeEscaped(text, Emitted(html, InText));
    EmittedStretch(e, html, InText);
    BehindLonger(text, plain, Read(html, InText), lost);
    assert Tagged(text + plain, Read(e + html, InText)) by {
      BehindIsTagged(text + plain, Read(e + html, InText), lost);
    }
    forall m ensures Tagged(text + plain, Read(e + html, m)) {
      if m.InTag? {
        EmittedStretch(e, html, m);
        var quoted :| Emitted(e + html, m) == Emitted(html, InTag(quoted));
        assert Tagged(plain, Read(html, InTag(quoted)));
        TaggedLonger(text, plain, Read(html, InTag(quoted)));
      }
    }
  }

  lemma BehindIsTagged(plain: string, read: string, lost: bool)
    requires Behind(plain, read, lost)
    ensures Tagged(plain, read)
  {
  }

  lemma EndsTransitively(s: string, t: string, end: string)
    ensures EndsWith(s, t) && EndsWith(t, end) ==> EndsWith(s, end)
  {
    if EndsWith(s, t) && |end| <= |t| {
      assert t[|t| - |end|..] == s[|s| - |end|..];
    }
  }

  lemma EndsWithTail(s: string, c: char, end: string)
    requires EndsWith(s, [c] + end)
    ensures EndsWith(s[1..], end)
  {
    assert s[1..][|s| - 1 - |end|..] == s[|s| - |end|..];
    assert s[|s| - |end|..] == ([c] + end)[1..];
  }

  lemma CharBeforeEnd(s: string, c: char, end: string)
    requires EndsWith(s, [c] + end)
    ensures EndsWith(s, end) && s[|s| - |end| - 1] == c
  {
    assert s[|s| - |end|..] == ([c] + end)[1..];
    assert ([c] + end)[0] == c;
  }

  /** A raw character that is read in text, and may start a reference with what follows. */
  lemma RawCharStaysBehind(c: char, plain: string, emitted: string, lost: bool)
    requires Behind(plain, Unescape(emitted), lost)
    ensures Behind([c] + plain, Unescape([c] + emitted), lost)
  {
    var read, all := Unescape(emitted), Unescape([c] + emitted);
    UnescapeStep(c, emitted);
    if !IsReference([c] + emitted) {
      BehindLonger([c], plain, read, lost);
    } else {
      ReferenceIsShorter([c] + emitted);
      if EndsWith(all, [c] + plain) {
        EndsWithTail(all, c, plain);
        EndsTransitively(read, all[1..], plain);
        assert false;
      }
    }
    hide Unescape, IsReference;
  }

  /** One character of an expression in front. If it starts a tag, the plain text cannot be read any more. */
  lemma RawCharKeepsClaims(c: char, html: string, plain: string, lost: bool)
    requires Claims(html, plain, lost)
    ensures Claims([c] + html, [c] + plain, lost || c == '<')
  {
    var all := [c] + html;
    hide Unescape, Emitted;
    EmittedFirst(c, html, InText);
    assert Behind([c] + plain, Read(all, InText), lost || c == '<') by {
      if c == '<' {
        assert Tagged(plain, Read(html, InTag(false)));
        TagLosesPlain(plain, Read(html, InTag(false)));
      } else {
        RawCharStaysBehind(c, plain, Emitted(html, InText), lost);
      }
    }
    hide Tagged, Behind;
    forall m ensures Tagged([c] + plain, Read(all, m)) {
      if m == InText {
        BehindIsTagged([c] + plain, Read(all, InText), lost || c == '<');
      } else {
        EmittedFirst(c, html, m);
        assert Tagged(plain, Read(html, After(c, m)));
        TaggedLonger([c], plain, Read(html, After(c, m)));
      }
    }
  }

  lemma TagLosesPlain(plain: string, read: string)
    requires Tagged(plain, read)
    ensures Behind("<" + plain, read, true)
  {
    if EndsWith(read, "<" + plain) {
      CharBeforeEnd(read, '<', plain);
      assert false;
    }
  }

  lemma {:induction false} RawKeepsClaims(e: string, html: string, plain: string, lost: bool)
    requires Claims(html, plain, lost)
    ensures Claims(e + html, e + plain, lost || !Lacks(e, '<'))
  {
    hide Claims;
    if e == "" {
      assert e + html == html && e + plain == plain;
    } else {
      RawKeepsClaims(e[1..], html, plain, lost);
      RawCharKeepsClaims(e[0], e[1..] + html, e[1..] + plain, lost || !Lacks(e[1..], '<'));
      FirstAndRest(e, html);
      FirstAndRest(e, plain);
      assert Lacks(e, '<') <==> e[0] != '<' && Lacks(e[1..], '<');
    }
  }

  lemma {:induction false} TreeKeepsClaims(t: RichText, html: string, plain: string, lost: bool)
    requires Claims(html, plain, lost)
    ensures Claims(Html(t) + html, PlainText(t) + plain, lost || !MathHasNoTag(t))
    decreases t, 1
  {
    hide Claims;
    var f := FrameOf(t);
    if f.NoTag? {
      InsideKeepsClaims(t, html, plain, lost);
      assert Html(t) == Inside(t);
    } else {
      FramesAreFrames(t);
      ClosingKeepsClaims(f.tag, html, plain, lost);
      InsideKeepsClaims(t, CloseTag(f.tag) + html, plain, lost);
      FramedHtml(t, html);
      hide FrameOf, Html, Inside, IsFrame, CloseTag, Opening, PlainText, MathHasNoTag;
      OpeningKeepsClaims(f, Inside(t) + (CloseTag(f.tag) + html), PlainText(t) + plain, lost || !MathHasNoTag(t));
    }
  }

  lemma {:induction false} InsideKeepsClaims(t: RichText, html: string, plain: string, lost: bool)
    requires Claims(html, plain, lost)
    ensures Claims(Inside(t) + html, PlainText(t) + plain, lost || !MathHasNoTag(t))
    decreases t, 0
  {
    hide Claims, Html;
    match t
    case Absent | Anchor(_) => assert Inside(t) + html == html && PlainText(t) + plain == plain;
    case Plain(text) => EscapedKeepsClaims(text, html, plain, lost);
    case Sequence(spans) => TreesKeepClaims(spans, html, plain, lost);
    case CustomEmoji(_, alternative) => EscapedKeepsClaims(alternative, html, plain, lost);
    case MathExpression(expression) => RawKeepsClaims(expression, html, plain, lost);
    case _ => TreeKeepsClaims(t.inner, html, plain, lost);
  }

  lemma {:induction false} TreesKeepClaims(spans: seq<RichText>, html: string, plain: string, lost: bool)
    requires Claims(html, plain, lost)
    ensures Claims(HtmlAll(spans) + html, PlainTextAll(spans) + plain, lost || !forall s | s in spans :: MathHasNoTag(s))
    decreases spans
  {
    hide Claims, Html, PlainText, MathHasNoTag;
    if spans == [] {
      assert HtmlAll(spans) + html == html && PlainTextAll(spans) + plain == plain;
    } else {
      var k := |spans| - 1;
      var last := spans[k];
      TreeKeepsClaims(last, html, plain, lost);
      TreesKeepClaims(spans[..k], Html(last) + html, PlainText(last) + plain, lost || !MathHasNoTag(last));
      Associative(HtmlAll(spans[..k]), Html(last), html);
      Associative(PlainTextAll(spans[..k]), PlainText(last), plain);
      assert spans == spans[..k] + [last];
      assert forall s :: s in spans <==> s in spans[..k] || s == last;
    }
  }

  /** An expression with a < in it, wherever it stands in a tree, keeps the tree's plain text from being read back. */
  lemma UnreadableMathIsLost(t: RichText)
    requires !MathHasNoTag(t)
    ensures ReadBack(Html(t)) != PlainText(t)
  {
    assert Claims("", "", false);
    hide Claims;
    TreeKeepsClaims(t, "", "", false);
    assert Html(t) + "" == Html(t) && PlainText(t) + "" == PlainText(t);
    hide Html, PlainText;
    TextIsEmitted(Html(t));
    assert Behind(PlainText(t), Read(Html(t), InText), true) by {
      assert Claims(Html(t), PlainText(t), true);
    }
    hide Unescape, Emitted, Tokens, TextOf;
    assert EndsWith(PlainText(t), PlainText(t));
  }
}
