/**
 * The browser's escapeHtml: every `&`, `<`, `>`, `"` and `'` of a string is
 * replaced by its character reference; every other character is kept.
 */
module HtmlEscape {
  /** The five characters the escaper rewrites. */
  predicate IsSpecial(c: char) {
    c == '&' || c == '<' || c == '>' || c == '"' || c == '\''
  }

  /** The characters that would open a tag or end an attribute value. */
  predicate IsMarkup(c: char) {
    c == '<' || c == '>' || c == '"' || c == '\''
  }

  /** s holds none of the five special characters. */
  predicate NoSpecial(s: string) {
    forall k :: 0 <= k < |s| ==> !IsSpecial(s[k])
  }

  /** The replacement table. */
  function Entity(c: char): (r: string)
    requires IsSpecial(c)
  {
    match c
    case '&' => "&amp;"
    case '<' => "&lt;"
    case '>' => "&gt;"
    case '"' => "&quot;"
    case '\'' => "&#39;"
  }

  /** The image of one character: its entity when special, itself otherwise. */
  function EscapeChar(c: char): (r: string)
    ensures c == '&' ==> r == "&amp;"
    ensures c == '<' ==> r == "&lt;"
    ensures c == '>' ==> r == "&gt;"
    ensures c == '"' ==> r == "&quot;"
    ensures c == '\'' ==> r == "&#39;"
    ensures IsSpecial(c) ==> |r| > 1 && r[0] == '&'
    ensures !IsSpecial(c) ==> r == [c]
    ensures forall k :: 0 <= k < |r| ==> !IsMarkup(r[k])
  {
    if IsSpecial(c) then Entity(c) else [c]
  }

  /** escapeHtml(str): the characters of s, each replaced by its image, in order. */
  function EscapeHtml(s: string): (r: string)
    ensures forall k :: 0 <= k < |r| ==> !IsMarkup(r[k])
    ensures |r| >= |s|
    ensures |r| == |s| <==> NoSpecial(s)
    ensures NoSpecial(s) ==> r == s
  {
    if s == [] then []
    else
      assert NoSpecial(s) <==> !IsSpecial(s[0]) && NoSpecial(s[1..]) by {
        assert forall k :: 0 < k < |s| ==> s[k] == s[1..][k - 1];
      }
      EscapeChar(s[0]) + EscapeHtml(s[1..])
  }

  /** Decodes the five references the escaper produces; every other character stands for itself. */
  function Unescape(t: string): string
    decreases |t|
  {
    if t == [] then []
    else if "&amp;" <= t then ['&'] + Unescape(t[5..])
    else if "&lt;" <= t then ['<'] + Unescape(t[4..])
    else if "&gt;" <= t then ['>'] + Unescape(t[4..])
    else if "&quot;" <= t then ['"'] + Unescape(t[6..])
    else if "&#39;" <= t then ['\''] + Unescape(t[5..])
    else [t[0]] + Unescape(t[1..])
  }

  /** Decoding the image of c followed by anything yields c, then the decoding of the rest. */
  lemma {:induction false} UnescapeImage(c: char, rest: string)
    ensures Unescape(EscapeChar(c) + rest) == [c] + Unescape(rest)
  {
    var t := EscapeChar(c) + rest;
    if c == '&' {
      assert "&amp;" <= t && t[5..] == rest;
    } else if c == '<' {
      assert t[1] == 'l';
      assert "&lt;" <= t && t[4..] == rest;
    } else if c == '>' {
      assert t[1] == 'g';
      assert "&gt;" <= t && t[4..] == rest;
    } else if c == '"' {
      assert t[1] == 'q';
      assert "&quot;" <= t && t[6..] == rest;
    } else if c == '\'' {
      assert t[1] == '#';
      assert "&#39;" <= t && t[5..] == rest;
    } else {
      assert t[0] == c != '&';
      assert t[1..] == rest;
    }
  }

  /** Unescaping an escaped string gives the string back. */
  lemma {:induction false} UnescapeEscape(s: string)
    ensures Unescape(EscapeHtml(s)) == s
  {
    if s != [] {
      UnescapeEscape(s[1..]);
      UnescapeImage(s[0], EscapeHtml(s[1..]));
      assert s == [s[0]] + s[1..];
    }
  }

  /** Different strings escape differently. */
  lemma {:induction false} EscapeInjective(a: string, b: string)
    requires EscapeHtml(a) == EscapeHtml(b)
    ensures a == b
  {
    UnescapeEscape(a);
    UnescapeEscape(b);
  }

  /** Escaping works piece by piece: the escape of a concatenation is the concatenation of the escapes. */
  lemma {:induction false} EscapeAppend(a: string, b: string)
    ensures EscapeHtml(a + b) == EscapeHtml(a) + EscapeHtml(b)
  {
    if a == [] {
      assert a + b == b;
    } else {
      assert (a + b)[1..] == a[1..] + b;
      EscapeAppend(a[1..], b);
    }
  }

  /**
   * Each character of s lands in the output as its own image, between the
   * escapes of what precedes and what follows it, so unchanged characters
   * keep their order.
   */
  lemma {:induction false} EscapeAt(s: string, i: nat)
    requires i < |s|
    ensures EscapeHtml(s) == EscapeHtml(s[..i]) + EscapeChar(s[i]) + EscapeHtml(s[i + 1..])
  {
    var rest := s[i..];
    assert s == s[..i] + rest;
    EscapeAppend(s[..i], rest);
    assert rest[1..] == s[i + 1..];
    assert EscapeHtml(rest) == EscapeChar(s[i]) + EscapeHtml(s[i + 1..]);
  }

  /** The escaped text contains no `<` at all. */
  lemma {:induction false} NoOpeningBracket(s: string)
    ensures multiset(EscapeHtml(s))['<'] == 0
  {
    assert '<' !in EscapeHtml(s);
  }
}
