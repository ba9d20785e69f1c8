/**
 * Whitespace trimming. The server trims with Python's str.strip() and the
 * browser with JavaScript's String.prototype.trim(); the two remove slightly
 * different sets of characters, so the trimming function takes the set.
 */
module Text {

  /** Whitespace that both Python's str.isspace() and JavaScript's trim() recognise. */
  const CommonWhitespace: set<char> := {
    '\t', '\n', '\U{B}', '\U{C}', '\r', ' ', '\U{A0}', '\U{1680}',
    '\U{2000}', '\U{2001}', '\U{2002}', '\U{2003}', '\U{2004}', '\U{2005}',
    '\U{2006}', '\U{2007}', '\U{2008}', '\U{2009}', '\U{200A}',
    '\U{2028}', '\U{2029}', '\U{202F}', '\U{205F}', '\U{3000}'
  }

  /** Whitespace only Python strips: the information separators and NEXT LINE. */
  const PythonOnlyWhitespace: set<char> := {'\U{1C}', '\U{1D}', '\U{1E}', '\U{1F}', '\U{85}'}

  /** What str.strip() with no argument removes. */
  const PythonWhitespace: set<char> := CommonWhitespace + PythonOnlyWhitespace

  /** What String.prototype.trim() removes (WhiteSpace and LineTerminator, including the BOM). */
  const JsWhitespace: set<char> := CommonWhitespace + {'\U{FEFF}'}

  /** Every character of s is in ws. */
  predicate AllIn(s: string, ws: set<char>) {
    forall k :: 0 <= k < |s| ==> s[k] in ws
  }

  /** s neither starts nor ends with a character of ws. */
  predicate IsTrimmed(s: string, ws: set<char>) {
    s == [] || (s[0] !in ws && s[|s| - 1] !in ws)
  }

  /** Index of the first character of s that is not in ws (|s| when there is none). */
  function ContentStart(s: string, ws: set<char>): (i: nat)
    ensures i <= |s|
    ensures AllIn(s[..i], ws)
    ensures i < |s| ==> s[i] !in ws
  {
    if s == [] || s[0] !in ws then 0 else 1 + ContentStart(s[1..], ws)
  }

  /** Length of s once its trailing characters in ws are dropped. */
  function ContentEnd(s: string, ws: set<char>): (j: nat)
    ensures j <= |s|
    ensures AllIn(s[j..], ws)
    ensures 0 < j ==> s[j - 1] !in ws
  {
    if s == [] || s[|s| - 1] !in ws then |s| else ContentEnd(s[..|s| - 1], ws)
  }

  /**
   * Removes whitespace from both ends: the result is the infix of s that
   * starts after its leading run and ends before its trailing run of ws.
   */
  function Strip(s: string, ws: set<char>): (r: string)
    ensures ContentStart(s, ws) + |r| <= |s|
    ensures r == s[ContentStart(s, ws)..ContentStart(s, ws) + |r|]
    ensures AllIn(s[ContentStart(s, ws) + |r|..], ws)
    ensures IsTrimmed(r, ws)
    ensures r == [] <==> AllIn(s, ws)
  {
    var i, j := ContentStart(s, ws), ContentEnd(s, ws);
    if i < j then
      s[i..j]
    else
      assert AllIn(s, ws) by {
        assert s == s[..i];
      }
      []
  }

  /** A string with no whitespace at its ends strips to itself. */
  lemma {:induction false} StripTrimmed(s: string, ws: set<char>)
    requires IsTrimmed(s, ws)
    ensures Strip(s, ws) == s
  {
    assert ContentStart(s, ws) == 0;
    assert ContentEnd(s, ws) == |s|;
  }
}
