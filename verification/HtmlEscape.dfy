/**
 * HTML escaping in the blog generator: five replacements, one after the other, amount to one
 * substitution per character, and decoding the five character references gives the text back.
 */
module HtmlEscape {

  /** text.replaceAll(c, with) for a one-character pattern. */
  function ReplaceAll(text: string, c: char, with: string): string {
    if text == "" then ""
    else (if text[0] == c then with else [text[0]]) + ReplaceAll(text[1..], c, with)
  }

  function EscapeHtml(text: string): string {
    var a := ReplaceAll(text, '&', "&amp;");
    var b := ReplaceAll(a, '<', "&lt;");
    var c := ReplaceAll(b, '>', "&gt;");
    var d := ReplaceAll(c, '"', "&quot;");
    ReplaceAll(d, '\'', "&#39;")
  }

  /** What one character becomes. */
  function Entity(c: char): string {
    match c
    case '&' => "&amp;"
    case '<' => "&lt;"
    case '>' => "&gt;"
    case '"' => "&quot;"
    case '\'' => "&#39;"
    case _ => [c]
  }

  function Substitute(text: string): string {
    if text == "" then "" else Entity(text[0]) + Substitute(text[1..])
  }

  /** Character references are read from left to right; anything else stands for itself. */
  function Decode(html: string): string {
    if html == "" then ""
    else if "&amp;" <= html then "&" + Decode(html[5..])
    else if "&lt;" <= html then "<" + Decode(html[4..])
    else if "&gt;" <= html then ">" + Decode(html[4..])
    else if "&quot;" <= html then "\"" + Decode(html[6..])
    else if "&#39;" <= html then "'" + Decode(html[5..])
    else [html[0]] + Decode(html[1..])
  }

  // ---------------------------------------------------------------- one replacement

  lemma {:induction false} ReplaceInParts(a: string, b: string, c: char, with: string)
    ensures ReplaceAll(a + b, c, with) == ReplaceAll(a, c, with) + ReplaceAll(b, c, with)
  {
    if a == "" {
      assert a + b == b;
    } else {
      assert (a + b)[1..] == a[1..] + b;
      ReplaceInParts(a[1..], b, c, with);
    }
  }

  lemma {:induction false} NothingToReplace(text: string, c: char, with: string)
    requires c !in text
    ensures ReplaceAll(text, c, with) == text
  {
    if text != "" { NothingToReplace(text[1..], c, with); }
  }

  lemma ReplaceOne(c: char, with: string)
    ensures ReplaceAll([c], c, with) == with
  {
    assert [c][1..] == "";
  }

  // ---------------------------------------------------------------- all five

  lemma EscapeInParts(a: string, b: string)
    ensures EscapeHtml(a + b) == EscapeHtml(a) + EscapeHtml(b)
  {
    ReplaceInParts(a, b, '&', "&amp;");
    var a1, b1 := ReplaceAll(a, '&', "&amp;"), ReplaceAll(b, '&', "&amp;");
    ReplaceInParts(a1, b1, '<', "&lt;");
    var a2, b2 := ReplaceAll(a1, '<', "&lt;"), ReplaceAll(b1, '<', "&lt;");
    ReplaceInParts(a2, b2, '>', "&gt;");
    var a3, b3 := ReplaceAll(a2, '>', "&gt;"), ReplaceAll(b2, '>', "&gt;");
    ReplaceInParts(a3, b3, '"', "&quot;");
    ReplaceInParts(ReplaceAll(a3, '"', "&quot;"), ReplaceAll(b3, '"', "&quot;"), '\'', "&#39;");
  }

  // A text none of the last replacements touches.
  lemma Untouched(text: string)
    requires '<' !in text && '>' !in text && '"' !in text && '\'' !in text
    ensures ReplaceAll(ReplaceAll(ReplaceAll(ReplaceAll(text, '<', "&lt;"), '>', "&gt;"), '"', "&quot;"), '\'', "&#39;")
         == text
  {
    NothingToReplace(text, '<', "&lt;");
    NothingToReplace(text, '>', "&gt;");
    NothingToReplace(text, '"', "&quot;");
    NothingToReplace(text, '\'', "&#39;");
  }

  // No later replacement touches what an earlier one produced; the ampersand has to go first.
  lemma EscapeAmpersand()
    ensures EscapeHtml("&") == "&amp;"
  {
    ReplaceOne('&', "&amp;");
    Untouched("&amp;");
  }

  lemma UntouchedByLastThree(text: string)
    requires '>' !in text && '"' !in text && '\'' !in text
    ensures ReplaceAll(ReplaceAll(ReplaceAll(text, '>', "&gt;"), '"', "&quot;"), '\'', "&#39;") == text
  {
    NothingToReplace(text, '>', "&gt;");
    NothingToReplace(text, '"', "&quot;");
    NothingToReplace(text, '\'', "&#39;");
  }

  lemma EscapeLess(c: char, entity: string)
    requires c == '<' && entity == Entity(c)
    ensures EscapeHtml([c]) == entity
  {
    NothingToReplace([c], '&', "&amp;");
    ReplaceOne(c, entity);
    UntouchedByLastThree(entity);
  }

  lemma EscapeOther(c: char)
    requires c != '&' && c != '<'
    ensures EscapeHtml([c]) == Entity(c)
  {
    NothingToReplace([c], '&', "&amp;");
    NothingToReplace([c], '<', "&lt;");
    if c == '>' {
      ReplaceOne('>', "&gt;");
      NothingToReplace("&gt;", '"', "&quot;");
      NothingToReplace("&gt;", '\'', "&#39;");
    } else {
      NothingToReplace([c], '>', "&gt;");
      EscapeQuote(c);
    }
  }

  lemma EscapeOne(c: char)
    ensures EscapeHtml([c]) == Entity(c)
  {
    if c == '&' {
      EscapeAmpersand();
    } else if c == '<' {
      EscapeLess(c, Entity(c));
    } else {
      EscapeOther(c);
    }
  }

  lemma EscapeQuote(c: char)
    requires c != '&' && c != '<' && c != '>'
    ensures ReplaceAll(ReplaceAll([c], '"', "&quot;"), '\'', "&#39;") == Entity(c)
  {
    if c == '"' {
      ReplaceOne('"', "&quot;");
      NothingToReplace("&quot;", '\'', "&#39;");
    } else {
      NothingToReplace([c], '"', "&quot;");
      if c == '\'' {
        ReplaceOne('\'', "&#39;");
      } else {
        NothingToReplace([c], '\'', "&#39;");
      }
    }
  }

  /** The five replacements in sequence are one substitution of every character at once. */
  lemma {:induction false} EscapeIsSubstitution(text: string)
    ensures EscapeHtml(text) == Substitute(text)
  {
    if text != "" {
      assert text == [text[0]] + text[1..];
      EscapeInParts([text[0]], text[1..]);
      EscapeOne(text[0]);
      EscapeIsSubstitution(text[1..]);
    }
  }

  // ---------------------------------------------------------------- what a reader sees

  lemma DecodeEntity(c: char, rest: string)
    ensures Decode(Entity(c) + rest) == [c] + Decode(rest)
  {
    var html := Entity(c) + rest;
    assert html[|Entity(c)|..] == rest;
    assert forall k :: 0 <= k < |Entity(c)| ==> html[k] == Entity(c)[k];
    match c
    case '&' => assert "&amp;" <= html;
    case '<' => assert "&lt;" <= html && html[1] == 'l';
    case '>' => assert "&gt;" <= html && html[1] == 'g';
    case '"' => assert "&quot;" <= html && html[1] == 'q';
    case '\'' => assert "&#39;" <= html && html[1] == '#';
    case _ => assert html[0] == c;
  }

  lemma {:induction false} DecodeSubstituted(text: string)
    ensures Decode(Substitute(text)) == text
  {
    if text != "" {
      DecodeEntity(text[0], Substitute(text[1..]));
      DecodeSubstituted(text[1..]);
    }
  }

  /** Decoding what was escaped gives every text back. */
  lemma DecodeEscaped(text: string)
    ensures Decode(EscapeHtml(text)) == text
  {
    EscapeIsSubstitution(text);
    DecodeSubstituted(text);
  }

  lemma {:induction false} SubstitutedIsInert(text: string, c: char)
    requires c == '<' || c == '>' || c == '"' || c == '\''
    ensures c !in Substitute(text)
  {
    if text != "" { SubstitutedIsInert(text[1..], c); }
  }

  /** One of the five character references escaping produces. */
  predicate StartsReference(html: string) {
    "&amp;" <= html || "&lt;" <= html || "&gt;" <= html || "&quot;" <= html || "&#39;" <= html
  }

  lemma EntityHasOneAmpersand(c: char, rest: string, i: nat)
    requires i < |Entity(c)| && Entity(c)[i] == '&'
    ensures i == 0 && StartsReference(Entity(c) + rest)
  {
    assert Entity(c) <= Entity(c) + rest;
  }

  lemma {:induction false} SubstitutedAmpersands(text: string, i: nat)
    requires i < |Substitute(text)| && Substitute(text)[i] == '&'
    ensures StartsReference(Substitute(text)[i..])
  {
    var first, rest := Entity(text[0]), Substitute(text[1..]);
    if i < |first| {
      EntityHasOneAmpersand(text[0], rest, i);
    } else {
      SubstitutedAmpersands(text[1..], i - |first|);
      assert Substitute(text)[i..] == rest[i - |first|..];
    }
  }

  /**
   * Every ampersand of escaped text starts one of the five references, so the decoding above is
   * all the decoding there is to do, whatever other references a reader knows.
   */
  lemma EscapedAmpersandsStartReferences(text: string, i: nat)
    requires i < |EscapeHtml(text)| && EscapeHtml(text)[i] == '&'
    ensures StartsReference(EscapeHtml(text)[i..])
  {
    EscapeIsSubstitution(text);
    SubstitutedAmpersands(text, i);
  }

  /** Escaped text holds no character that could open a tag or close an attribute value. */
  lemma EscapedIsInert(text: string)
    ensures forall c <- EscapeHtml(text) :: c != '<' && c != '>' && c != '"' && c != '\''
  {
    EscapeIsSubstitution(text);
    SubstitutedIsInert(text, '<');
    SubstitutedIsInert(text, '>');
    SubstitutedIsInert(text, '"');
    SubstitutedIsInert(text, '\'');
  }
}
