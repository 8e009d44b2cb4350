/** `escape_svg_text`: five replacements over the whole text, one after the other. */
module SvgText {

  /** `str::replace` of one character. */
  function Replace(text: string, c: char, entity: string): string {
    if text == "" then "" else (if text[0] == c then entity else [text[0]]) + Replace(text[1..], c, entity)
  }

  function EscapeSvgText(text: string): string {
    var angles := Replace(Replace(Replace(text, '&', "&amp;"), '<', "&lt;"), '>', "&gt;");
    Replace(Replace(angles, '"', "&quot;"), '\'', "&apos;")
  }

  /** The character as XML text: sections 2.4 and 4.6 of XML 1.0. */
  function Entity(c: char): string {
    match c
    case '&' => "&amp;"
    case '<' => "&lt;"
    case '>' => "&gt;"
    case '"' => "&quot;"
    case '\'' => "&apos;"
    case _ => [c]
  }

  function Substituted(text: string): string {
    if text == "" then "" else Entity(text[0]) + Substituted(text[1..])
  }

  const MARKUP: set<char> := {'<', '>', '"', '\''}
  const ENTITIES: seq<string> := ["&amp;", "&lt;", "&gt;", "&quot;", "&apos;"]

  lemma {:induction false} ReplaceConcat(a: string, b: string, c: char, entity: string)
    ensures Replace(a + b, c, entity) == Replace(a, c, entity) + Replace(b, c, entity)
  {
    if a == "" {
      assert a + b == b;
    } else {
      assert (a + b)[0] == a[0] && (a + b)[1..] == a[1..] + b;
      ReplaceConcat(a[1..], b, c, entity);
    }
  }

  lemma {:induction false} EscapeConcat(a: string, b: string)
    ensures EscapeSvgText(a + b) == EscapeSvgText(a) + EscapeSvgText(b)
  {
    var a1, b1 := Replace(a, '&', "&amp;"), Replace(b, '&', "&amp;");
    var a2, b2 := Replace(a1, '<', "&lt;"), Replace(b1, '<', "&lt;");
    var a3, b3 := Replace(a2, '>', "&gt;"), Replace(b2, '>', "&gt;");
    var a4, b4 := Replace(a3, '"', "&quot;"), Replace(b3, '"', "&quot;");
    ReplaceConcat(a, b, '&', "&amp;");
    ReplaceConcat(a1, b1, '<', "&lt;");
    ReplaceConcat(a2, b2, '>', "&gt;");
    ReplaceConcat(a3, b3, '"', "&quot;");
    ReplaceConcat(a4, b4, '\'', "&apos;");
  }

  /** A text without the character is left alone. */
  lemma {:induction false} ReplaceAbsent(text: string, c: char, entity: string)
    requires c !in text
    ensures Replace(text, c, entity) == text
  {
    if text == "" {
    } else {
      assert c !in text[1..];
      ReplaceAbsent(text[1..], c, entity);
    }
  }

  lemma ReplaceOne(c: char, d: char, entity: string)
    ensures Replace([c], d, entity) == if c == d then entity else [c]
  {
    assert Replace([c][1..], d, entity) == "";
    assert entity + "" == entity && [c] + "" == [c];
  }

  /** One character meets exactly its own replacement, and no later one. */
  lemma EscapeOne(c: char)
    ensures EscapeSvgText([c]) == Entity(c)
  {
    hide Replace;
    if c == '&' {
      ReplaceOne(c, '&', "&amp;");
      Settled("&amp;");
    } else if c == '<' {
      ReplaceOne(c, '&', "&amp;"); ReplaceOne(c, '<', "&lt;");
      Settled("&lt;");
    } else if c == '>' {
      ReplaceOne(c, '&', "&amp;"); ReplaceOne(c, '<', "&lt;"); ReplaceOne(c, '>', "&gt;");
      Settled("&gt;");
    } else if c == '"' {
      ReplaceOne(c, '&', "&amp;"); ReplaceOne(c, '<', "&lt;"); ReplaceOne(c, '>', "&gt;"); ReplaceOne(c, '"', "&quot;");
      Settled("&quot;");
    } else {
      ReplaceOne(c, '&', "&amp;");
      ReplaceOne(c, '<', "&lt;"); ReplaceOne(c, '>', "&gt;");
      ReplaceOne(c, '"', "&quot;"); ReplaceOne(c, '\'', "&apos;");
    }
  }

  /** The later passes leave a text without markup characters alone. */
  lemma Settled(text: string)
    requires forall i | 0 <= i < |text| :: text[i] !in MARKUP
    ensures Replace(text, '<', "&lt;") == text && Replace(text, '>', "&gt;") == text
    ensures Replace(text, '"', "&quot;") == text && Replace(text, '\'', "&apos;") == text
  {
    ReplaceAbsent(text, '<', "&lt;");
    ReplaceAbsent(text, '>', "&gt;");
    ReplaceAbsent(text, '"', "&quot;");
    ReplaceAbsent(text, '\'', "&apos;");
  }

  /** The five passes together are one substitution per character: no pass touches what an earlier one wrote. */
  lemma {:induction false} EscapeIsSubstitution(text: string)
    ensures EscapeSvgText(text) == Substituted(text)
  {
    if text == "" {
    } else {
      assert text == [text[0]] + text[1..];
      EscapeConcat([text[0]], text[1..]);
      EscapeOne(text[0]);
      EscapeIsSubstitution(text[1..]);
    }
  }

  /** Position `i` of `text` is the start of a predefined entity. */
  ghost predicate EntityAt(text: string, i: nat) {
    i < |text| && exists e | 0 <= e < 5 :: ENTITIES[e] <= text[i..]
  }

  lemma EntityShape(c: char)
    ensures var e := Entity(c);
            && |e| > 0 && (forall i | 0 <= i < |e| :: e[i] !in MARKUP)
            && (forall i | 0 < i < |e| :: e[i] != '&')
            && (e[0] == '&' ==> exists k | 0 <= k < 5 :: ENTITIES[k] == e)
  {
    assert ENTITIES[0] == "&amp;" && ENTITIES[1] == "&lt;" && ENTITIES[2] == "&gt;"
        && ENTITIES[3] == "&quot;" && ENTITIES[4] == "&apos;";
  }

  /** Escaped text carries no markup character, and every ampersand starts one of the five predefined entities. */
  lemma {:induction false} EscapedIsText(text: string, i: nat)
    requires i < |EscapeSvgText(text)|
    ensures EscapeSvgText(text)[i] !in MARKUP
    ensures EscapeSvgText(text)[i] == '&' ==> EntityAt(EscapeSvgText(text), i)
    decreases |text|
  {
    EscapeIsSubstitution(text);
    var e, rest := Entity(text[0]), Substituted(text[1..]);
    EntityShape(text[0]);
    var out := e + rest;
    if i < |e| {
      assert out[i] == e[i];
      if e[i] == '&' {
        var k :| 0 <= k < 5 && ENTITIES[k] == e;
        assert ENTITIES[k] <= out[0..];
      }
    } else {
      EscapeIsSubstitution(text[1..]);
      EscapedIsText(text[1..], i - |e|);
      assert out[i] == rest[i - |e|] && out[i..] == rest[i - |e|..];
    }
  }

  /** A one-pass reader: a predefined entity becomes its character, anything else is copied. */
  function Unescape(text: string): string
    decreases |text|
  {
    if text == "" then ""
    else if "&amp;" <= text then "&" + Unescape(text[5..])
    else if "&lt;" <= text then "<" + Unescape(text[4..])
    else if "&gt;" <= text then ">" + Unescape(text[4..])
    else if "&quot;" <= text then "\"" + Unescape(text[6..])
    else if "&apos;" <= text then "'" + Unescape(text[6..])
    else [text[0]] + Unescape(text[1..])
  }

  lemma UnescapeOne(c: char, rest: string)
    ensures Unescape(Entity(c) + rest) == [c] + Unescape(rest)
  {
    var e := Entity(c);
    var text := e + rest;
    assert text[|e|..] == rest;
    assert forall i | 0 <= i < |e| :: text[i] == e[i];
    if c == '&' {
      assert "&amp;" <= text;
    } else if c == '<' {
      Differs("&amp;", text, 1);
      assert "&lt;" <= text;
    } else if c == '>' {
      Differs("&amp;", text, 1); Differs("&lt;", text, 1);
      assert "&gt;" <= text;
    } else if c == '"' {
      Differs("&amp;", text, 1); Differs("&lt;", text, 1); Differs("&gt;", text, 1);
      assert "&quot;" <= text;
    } else if c == '\'' {
      Differs("&amp;", text, 2); Differs("&lt;", text, 1); Differs("&gt;", text, 1); Differs("&quot;", text, 1);
      assert "&apos;" <= text;
    } else {
      Differs("&amp;", text, 0); Differs("&lt;", text, 0); Differs("&gt;", text, 0);
      Differs("&quot;", text, 0); Differs("&apos;", text, 0);
    }
  }

  lemma Differs(prefix: string, text: string, i: nat)
    requires i < |prefix| && i < |text| && prefix[i] != text[i]
    ensures !(prefix <= text)
  {
  }

  /** Reading the escaped text back gives the original text. */
  lemma {:induction false} UnescapeEscape(text: string)
    ensures Unescape(EscapeSvgText(text)) == text
  {
    EscapeIsSubstitution(text);
    if text == "" {
    } else {
      EscapeIsSubstitution(text[1..]);
      UnescapeOne(text[0], Substituted(text[1..]));
      UnescapeEscape(text[1..]);
    }
  }
}
