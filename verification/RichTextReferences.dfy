/**
 Character references in text that is written unescaped: undoing the escaping shortens it exactly where it starts one.
 */
module RichTextReferences {
  import opened Strings
  import opened RichTextTheorems

  predicate IsReference(s: string) {
    HasPrefix(s, "&amp;") || HasPrefix(s, "&lt;") || HasPrefix(s, "&gt;") || HasPrefix(s, "&quot;")
  }

  /** No character of e starts a reference when rest follows. */
  predicate StartsNoReference(e: string, rest: string) {
    e == "" || (!IsReference(e + rest) && StartsNoReference(e[1..], rest))
  }

  /** How long the reference is that s starts with. */
  function ReferenceLength(s: string): (m: nat)
    requires IsReference(s)
    ensures 2 <= m <= |s|
  {
    if HasPrefix(s, "&amp;") then 5 else if HasPrefix(s, "&lt;") || HasPrefix(s, "&gt;") then 4 else 6
  }

  /** A reference is read as one character for several, of which only the first is an ampersand. */
  lemma ReferenceIsShorter(s: string)
    requires IsReference(s)
    ensures var m := ReferenceLength(s);
            Lacks(s[1..m], '&') && |Unescape(s)| == 1 + |Unescape(s[m..])| && Unescape(s)[1..] == Unescape(s[m..])
  {
    var m := ReferenceLength(s);
    var reference := s[..m];
    assert forall i | 0 <= i < m :: s[i] == reference[i];
    assert Lacks(s[1..m], '&');
  }

  /** Unescaping a first character: it stays, or starts a reference and the text gets shorter. */
  lemma UnescapeStep(c: char, s: string)
    ensures !IsReference([c] + s) ==> Unescape([c] + s) == [c] + Unescape(s)
    ensures IsReference([c] + s) ==>
      1 <= |Unescape([c] + s)| <= |Unescape(s)| && EndsWith(Unescape(s), Unescape([c] + s)[1..])
  {
    var all := [c] + s;
    assert all[1..] == s;
    if IsReference(all) {
      var m := ReferenceLength(all);
      ReferenceIsShorter(all);
      hide Unescape, IsReference, ReferenceLength;
      assert s == all[1..m] + all[m..];
      UnescapeRaw(all[1..m], all[m..]);
    }
  }

  predicate EndsWith(s: string, end: string) {
    |end| <= |s| && s[|s| - |end|..] == end
  }

  /** Raw text is read as it is exactly when it starts no reference; otherwise the result is shorter. */
  lemma {:induction false} RawIsReadExactly(e: string, rest: string)
    ensures |Unescape(e + rest)| <= |e| + |Unescape(rest)|
    ensures |Unescape(e + rest)| == |e| + |Unescape(rest)| <==> StartsNoReference(e, rest)
    ensures StartsNoReference(e, rest) ==> Unescape(e + rest) == e + Unescape(rest)
  {
    if e == "" {
      assert e + rest == rest;
    } else {
      RawIsReadExactly(e[1..], rest);
      FirstAndRest(e, rest);
      hide Unescape, IsReference;
      UnescapeStep(e[0], e[1..] + rest);
      if StartsNoReference(e, rest) {
        FirstAndRest(e, Unescape(rest));
      }
    }
  }
}
