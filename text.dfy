/** The string primitives the app applies to user input: String.prototype.trim and toUpperCase. */
module Text {

  /** ECMAScript WhiteSpace and LineTerminator code points, the characters `trim` removes. */
  const WhitespaceChars: seq<char> := [
    '\t', '\n', '\U{000B}', '\U{000C}', '\r', ' ', '\U{00A0}', '\U{1680}',
    '\U{2000}', '\U{2001}', '\U{2002}', '\U{2003}', '\U{2004}', '\U{2005}',
    '\U{2006}', '\U{2007}', '\U{2008}', '\U{2009}', '\U{200A}',
    '\U{2028}', '\U{2029}', '\U{202F}', '\U{205F}', '\U{3000}', '\U{FEFF}'
  ]

  predicate Listed(c: char, list: seq<char>) {
    list != [] && (list[0] == c || Listed(c, list[1..]))
  }

  /** None of the listed characters is a visible ASCII character, so those are ruled out first. */
  predicate IsWhitespace(c: char) {
    (c < '!' || '~' < c) && Listed(c, WhitespaceChars)
  }

  predicate AllWhitespace(s: string) {
    forall i :: 0 <= i < |s| ==> IsWhitespace(s[i])
  }

  /** The first position at or after k that does not hold a blank (|s| when there is none). */
  function SkipForward(s: string, k: nat): (n: nat)
    requires k <= |s|
    ensures k <= n <= |s|
    ensures forall i :: k <= i < n ==> IsWhitespace(s[i])
    ensures n < |s| ==> !IsWhitespace(s[n])
    decreases |s| - k
  {
    if k < |s| && IsWhitespace(s[k]) then SkipForward(s, k + 1) else k
  }

  /** The end of s[..k] once its trailing blanks are dropped (0 when there is nothing else). */
  function SkipBack(s: string, k: nat): (n: nat)
    requires k <= |s|
    ensures n <= k
    ensures forall i :: n <= i < k ==> IsWhitespace(s[i])
    ensures 0 < n ==> !IsWhitespace(s[n - 1])
  {
    if 0 < k && IsWhitespace(s[k - 1]) then SkipBack(s, k - 1) else k
  }

  /** Drops the leading whitespace: the result is the suffix of s from its first non-blank. */
  function TrimStart(s: string): (r: string)
    ensures |r| <= |s|
    ensures r != [] ==> !IsWhitespace(r[0])
    ensures forall i :: 0 <= i < |s| - |r| ==> IsWhitespace(s[i])
  {
    s[SkipForward(s, 0)..]
  }

  /** String.prototype.trim: the stretch between the first and the last non-blank. */
  function Trim(s: string): (r: string)
    ensures |r| <= |s|
    ensures r == [] <==> AllWhitespace(s)
    ensures r != [] ==> !IsWhitespace(r[0]) && !IsWhitespace(r[|r| - 1])
  {
    var start := SkipForward(s, 0);
    if start == |s| then [] else s[start..SkipBack(s, |s|)]
  }

  /** What trim keeps is s with a blank prefix and a blank suffix removed. */
  lemma TrimIsInfix(s: string)
    ensures var start := SkipForward(s, 0);
      && start + |Trim(s)| <= |s|
      && Trim(s) == s[start..start + |Trim(s)|]
      && (forall i :: 0 <= i < start ==> IsWhitespace(s[i]))
      && (forall i :: start + |Trim(s)| <= i < |s| ==> IsWhitespace(s[i]))
  {
  }

  function UpperChar(c: char): char {
    if 'a' <= c <= 'z' then (c as int - 32) as char else c
  }

  /** toUpperCase on the ASCII letters; every other character is kept. */
  function ToUpper(s: string): (r: string)
    ensures |r| == |s|
    ensures forall i :: 0 <= i < |s| ==> r[i] == UpperChar(s[i])
  {
    if s == [] then [] else [UpperChar(s[0])] + ToUpper(s[1..])
  }

  /** Upper-casing twice is upper-casing once, and no lower-case ASCII letter survives it. */
  lemma ToUpperIdempotent(s: string)
    ensures ToUpper(ToUpper(s)) == ToUpper(s)
    ensures forall i :: 0 <= i < |s| ==> !('a' <= ToUpper(s)[i] <= 'z')
  {
    var u := ToUpper(s);
    forall i | 0 <= i < |s| ensures ToUpper(u)[i] == u[i] && !('a' <= u[i] <= 'z') {
      assert u[i] == UpperChar(s[i]);
    }
  }
}
