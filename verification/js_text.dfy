/** `String.prototype.trim` as the submit handler uses it: only whether the
    trimmed username is empty matters there. */
module JsText {

  /** The characters `trim` strips: ECMAScript WhiteSpace (tab, vertical tab,
      form feed, space, no-break space, byte order mark and the other space
      separators U+1680, U+2000 to U+200A, U+202F, U+205F and U+3000) and
      LineTerminator (line feed, carriage return, line and paragraph
      separators). */
  const JsWhitespace: set<char> := {
    '\t', '\n', '\U{000B}', '\U{000C}', '\r', ' ', '\U{00A0}', '\U{1680}',
    '\U{2000}', '\U{2001}', '\U{2002}', '\U{2003}', '\U{2004}', '\U{2005}',
    '\U{2006}', '\U{2007}', '\U{2008}', '\U{2009}', '\U{200A}',
    '\U{2028}', '\U{2029}', '\U{202F}', '\U{205F}', '\U{3000}', '\U{FEFF}'
  }

  predicate IsJsWhitespace(c: char)
  {
    c in JsWhitespace
  }

  /** How many whitespace characters `s` starts with. */
  function LeadingSpace(s: string): (n: nat)
    ensures n <= |s|
    ensures forall i :: 0 <= i < n ==> IsJsWhitespace(s[i])
    ensures n < |s| ==> !IsJsWhitespace(s[n])
  {
    if |s| == 0 || !IsJsWhitespace(s[0]) then 0
    else
      var n := LeadingSpace(s[1..]);
      assert forall i :: 1 <= i <= n ==> s[i] == s[1..][i - 1];
      1 + n
  }

  /** Where the trailing whitespace of `s` begins. */
  function TrailingStart(s: string): (m: nat)
    ensures m <= |s|
    ensures forall i :: m <= i < |s| ==> IsJsWhitespace(s[i])
    ensures m > 0 ==> !IsJsWhitespace(s[m - 1])
  {
    if |s| == 0 || !IsJsWhitespace(s[|s| - 1]) then |s|
    else
      var m := TrailingStart(s[..|s| - 1]);
      assert forall i :: 0 <= i < |s| - 1 ==> s[i] == s[..|s| - 1][i];
      m
  }

  /** `r` is the piece of `s` starting at `lo`, and everything before and
      after it is whitespace. */
  predicate TrimmedAt(s: string, lo: int, r: string)
  {
    && 0 <= lo <= |s| - |r| && r == s[lo..lo + |r|]
    && (forall i :: 0 <= i < lo ==> IsJsWhitespace(s[i]))
    && (forall i :: lo + |r| <= i < |s| ==> IsJsWhitespace(s[i]))
  }

  /** `s.trim()`: the piece of `s` between its leading and its trailing
      whitespace, which neither starts nor ends with whitespace. */
  function Trim(s: string): (r: string)
    ensures TrimmedAt(s, LeadingSpace(s), r)
    ensures |r| > 0 ==> !IsJsWhitespace(r[0]) && !IsJsWhitespace(r[|r| - 1])
  {
    var lo := LeadingSpace(s);
    var hi := TrailingStart(s);
    if lo == |s| then []
    else
      assert lo < hi;
      s[lo..hi]
  }

  /** `!s.trim()`: the trimmed string is empty. */
  predicate IsBlank(s: string)
  {
    |Trim(s)| == 0
  }

  /** A string is blank exactly when every one of its characters is
      whitespace. */
  lemma BlankIffAllWhitespace(s: string)
    ensures IsBlank(s) <==> forall i :: 0 <= i < |s| ==> IsJsWhitespace(s[i])
  {
  }
}
