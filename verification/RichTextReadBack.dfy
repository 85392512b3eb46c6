/**
 The words of rendered rich text (richmessage_builder.go, richmessage_reader.go): dropping the tags from the HTML and
 undoing the escaping gives the plain text for every tree without mathematical expressions. For trees with expressions,
 which are written unescaped, it does so exactly when no expression starts a tag or a character reference.
 */
module RichTextReadBack {
  import opened Strings
  import opened RichText
  import opened RichTextTheorems
  import opened RichTextReferences
  import opened RichTextScan

  // --------------------------------------------------------------------------
  // The text between the tags

  function Visible(t: RichText): string {
    match t
    case Absent | Anchor(_) => ""
    case Plain(text) => EscapeHTML(text)
    case Sequence(spans) => VisibleAll(spans)
    case CustomEmoji(_, alternative) => EscapeHTML(alternative)
    case MathExpression(expression) => expression
    case _ => Visible(t.inner)
  }

  function VisibleAll(spans: seq<RichText>): string {
    if spans == [] then "" else VisibleAll(spans[..|spans| - 1]) + Visible(spans[|spans| - 1])
  }

  lemma {:induction false} TextOfTree(t: RichText, rest: seq<Token>)
    ensures TextOf(TokensOf(t) + rest) == Visible(t) + TextOf(rest)
    decreases t, 1
  {
    var f := FrameOf(t);
    if f.NoTag? {
      TextOfInside(t, rest);
    } else {
      var close := [Tag("/" + f.tag)] + rest;
      TextOfInside(t, close);
      FramedTokens(t, rest);
      hide FrameOf, InsideTokens, TextOf, TokensOf;
      TextOfFirst(Tag(Opening(f)), InsideTokens(t) + close);
      TextOfFirst(Tag("/" + f.tag), rest);
    }
  }

  lemma {:induction false} TextOfInside(t: RichText, rest: seq<Token>)
    ensures TextOf(InsideTokens(t) + rest) == Visible(t) + TextOf(rest)
    decreases t, 0
  {
    hide TokensOf;
    match t
    case Absent | Anchor(_) => assert InsideTokens(t) + rest == rest;
    case Plain(text) => TextOfChars(EscapeHTML(text), rest);
    case Sequence(spans) => TextOfTrees(spans, rest);
    case CustomEmoji(_, alternative) => TextOfChars(EscapeHTML(alternative), rest);
    case MathExpression(expression) => TextOfChars(expression, rest);
    case _ => TextOfTree(t.inner, rest);
  }

  lemma {:induction false} TextOfTrees(spans: seq<RichText>, rest: seq<Token>)
    ensures TextOf(TokensOfAll(spans) + rest) == VisibleAll(spans) + TextOf(rest)
    decreases spans
  {
    if spans == [] {
      assert TokensOfAll(spans) + rest == rest;
    } else {
      var k := |spans| - 1;
      hide TokensOf, Visible, TextOf;
      Associative(TokensOfAll(spans[..k]), TokensOf(spans[k]), rest);
      TextOfTrees(spans[..k], TokensOf(spans[k]) + rest);
      TextOfTree(spans[k], rest);
      Associative(VisibleAll(spans[..k]), Visible(spans[k]), TextOf(rest));
    }
  }

  // --------------------------------------------------------------------------
  // References that a tree's expressions start

  /** No expression of the tree starts a reference when rest follows the tree's text. */
  predicate NoReferences(t: RichText, rest: string) {
    match t
    case MathExpression(expression) => StartsNoReference(expression, rest)
    case Sequence(spans) => NoReferencesIn(spans, rest)
    case Absent | Anchor(_) | Plain(_) | CustomEmoji(_, _) => true
    case _ => NoReferences(t.inner, rest)
  }

  predicate NoReferencesIn(spans: seq<RichText>, rest: string) {
    spans == []
    || (NoReferences(spans[|spans| - 1], rest)
        && NoReferencesIn(spans[..|spans| - 1], Visible(spans[|spans| - 1]) + rest))
  }

  /** A tree's visible text is read as its plain text exactly when no expression starts a reference. */
  lemma {:induction false} VisibleIsReadExactly(t: RichText, rest: string)
    ensures |Unescape(Visible(t) + rest)| <= |PlainText(t)| + |Unescape(rest)|
    ensures |Unescape(Visible(t) + rest)| == |PlainText(t)| + |Unescape(rest)| <==> NoReferences(t, rest)
    ensures NoReferences(t, rest) ==> Unescape(Visible(t) + rest) == PlainText(t) + Unescape(rest)
    decreases t
  {
    hide Unescape;
    match t
    case Absent | Anchor(_) => assert Visible(t) + rest == rest;
    case Plain(text) => UnescapeEscaped(text, rest);
    case Sequence(spans) => VisibleAllIsReadExactly(spans, rest);
    case CustomEmoji(_, alternative) => UnescapeEscaped(alternative, rest);
    case MathExpression(expression) => RawIsReadExactly(expression, rest);
    case _ => VisibleIsReadExactly(t.inner, rest);
  }

  lemma {:induction false} VisibleAllIsReadExactly(spans: seq<RichText>, rest: string)
    ensures |Unescape(VisibleAll(spans) + rest)| <= |PlainTextAll(spans)| + |Unescape(rest)|
    ensures |Unescape(VisibleAll(spans) + rest)| == |PlainTextAll(spans)| + |Unescape(rest)|
            <==> NoReferencesIn(spans, rest)
    ensures NoReferencesIn(spans, rest) ==> Unescape(VisibleAll(spans) + rest) == PlainTextAll(spans) + Unescape(rest)
    decreases spans
  {
    hide Unescape, Visible, PlainText, NoReferences;
    if spans == [] {
      assert VisibleAll(spans) + rest == rest;
    } else {
      var k := |spans| - 1;
      Associative(VisibleAll(spans[..k]), Visible(spans[k]), rest);
      VisibleAllIsReadExactly(spans[..k], Visible(spans[k]) + rest);
      VisibleIsReadExactly(spans[k], rest);
      Associative(PlainTextAll(spans[..k]), PlainText(spans[k]), Unescape(rest));
    }
  }

  // --------------------------------------------------------------------------
  // Reading back

  /**
   The plain text is read back exactly when no expression contains a < and none starts a character reference together
   with the text that follows it.
   */
  lemma HtmlReadsAsPlainTextExactly(t: RichText)
    ensures ReadBack(Html(t)) == PlainText(t) <==> MathHasNoTag(t) && NoReferences(t, "")
  {
    if MathHasNoTag(t) {
      assert Html(t) + "" == Html(t) && TokensOf(t) + [] == TokensOf(t);
      HtmlIsRead(t, "");
      TextOfTree(t, []);
      assert TextOf(Tokens(Html(t))) == Visible(t) + "";
      VisibleIsReadExactly(t, "");
      hide Html, PlainText, Visible, NoReferences, TextOf, Tokens;
      assert Unescape("") == "" && PlainText(t) + "" == PlainText(t);
    } else {
      UnreadableMathIsLost(t);
    }
  }

  predicate HasNoMath(t: RichText) {
    match t
    case MathExpression(_) => false
    case Sequence(spans) => forall s | s in spans :: HasNoMath(s)
    case Absent | Anchor(_) | Plain(_) | CustomEmoji(_, _) => true
    case _ => HasNoMath(t.inner)
  }

  lemma {:induction false} NoMathIsReadable(t: RichText, rest: string)
    requires HasNoMath(t)
    ensures MathHasNoTag(t) && NoReferences(t, rest)
    decreases t
  {
    match t
    case Sequence(spans) => NoMathsAreReadable(spans, rest);
    case Absent | Anchor(_) | Plain(_) | CustomEmoji(_, _) | MathExpression(_) =>
    case _ => NoMathIsReadable(t.inner, rest);
  }

  lemma {:induction false} NoMathsAreReadable(spans: seq<RichText>, rest: string)
    requires forall s | s in spans :: HasNoMath(s)
    ensures (forall s | s in spans :: MathHasNoTag(s)) && NoReferencesIn(spans, rest)
    decreases spans
  {
    if spans != [] {
      var k := |spans| - 1;
      NoMathIsReadable(spans[k], rest);
      NoMathsAreReadable(spans[..k], Visible(spans[k]) + rest);
      assert spans == spans[..k] + [spans[k]];
    }
  }

  /** Every tree without expressions is read back as its plain text. */
  lemma HtmlReadsAsPlainText(t: RichText)
    requires HasNoMath(t)
    ensures ReadBack(Html(t)) == PlainText(t)
  {
    NoMathIsReadable(t, "");
    HtmlReadsAsPlainTextExactly(t);
  }

  /** A single expression is read back exactly when it has no < and unescaping leaves it as it is. */
  lemma MathReadsBackExactly(e: string)
    ensures ReadBack(Html(MathExpression(e))) == e <==> Lacks(e, '<') && Unescape(e) == e
  {
    HtmlReadsAsPlainTextExactly(MathExpression(e));
    RawIsReadExactly(e, "");
    assert e + "" == e && Unescape("") == "";
    hide Html, Unescape, Tokens, TextOf;
  }
}
