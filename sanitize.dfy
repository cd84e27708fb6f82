/** sanitizeHTML: HTML-escaping of user text before it is put into markup. */
module Sanitize {
  import opened Common

  /** String.prototype.replace with a global one-character pattern. */
  function ReplaceAll(s: string, c: char, rep: string): string {
    if s == [] then [] else (if s[0] == c then rep else [s[0]]) + ReplaceAll(s[1..], c, rep)
  }

  /** The chain of six `.replace` calls, '&' first; ReplaceFrom(k, s) runs calls k..5 on s. */
  const Patterns: seq<char> := ['&', '<', '>', '"', '\'', '/']
  const Entities: seq<string> := ["&amp;", "&lt;", "&gt;", "&quot;", "&#x27;", "&#x2F;"]

  function ReplaceFrom(k: nat, s: string): string
    requires k <= 6
    decreases 6 - k
  {
    if k == 6 then s else ReplaceFrom(k + 1, ReplaceAll(s, Patterns[k], Entities[k]))
  }

  function Chain(s: string): string {
    ReplaceFrom(0, s)
  }

  /** sanitizeHTML(str): '' for a missing or empty string, otherwise the escaped text. */
  function SanitizeHTML(str: Option<string>): (r: string)
    ensures str.None? ==> r == ""
    ensures str.Some? ==> r == Escape(str.value)
  {
    match str
    case None => ""
    case Some(s) =>
      if s == "" then "" else ChainIsEscape(s); Chain(s)
  }

  // ---- the reference definition: one character at a time ---------------------------

  predicate IsSpecial(c: char) {
    c == '&' || c == '<' || c == '>' || c == '"' || c == '\'' || c == '/'
  }

  /** The characters that never appear raw in sanitized text. */
  predicate IsRaw(c: char) {
    c == '<' || c == '>' || c == '"' || c == '\'' || c == '/'
  }

  function EscapeChar(c: char): string {
    if c == '&' then "&amp;"
    else if c == '<' then "&lt;"
    else if c == '>' then "&gt;"
    else if c == '"' then "&quot;"
    else if c == '\'' then "&#x27;"
    else if c == '/' then "&#x2F;"
    else [c]
  }

  function Escape(s: string): (r: string)
    ensures |r| >= |s|
    ensures r == [] <==> s == []
  {
    if s == [] then [] else EscapeChar(s[0]) + Escape(s[1..])
  }

  predicate StartsWith(s: string, prefix: string) {
    |prefix| <= |s| && s[..|prefix|] == prefix
  }

  predicate BeginsEntity(s: string) {
    || StartsWith(s, "&amp;") || StartsWith(s, "&lt;") || StartsWith(s, "&gt;")
    || StartsWith(s, "&quot;") || StartsWith(s, "&#x27;") || StartsWith(s, "&#x2F;")
  }

  /** No raw markup character, and every '&' opens one of the six entities. */
  predicate Safe(s: string) {
    forall i :: 0 <= i < |s| ==> !IsRaw(s[i]) && (s[i] == '&' ==> BeginsEntity(s[i..]))
  }

  /** Decoding the six entities back to their characters. */
  function Unescape(s: string): (r: string)
    ensures |r| <= |s|
    decreases |s|
  {
    if s == [] then []
    else if StartsWith(s, "&amp;") then "&" + Unescape(s[5..])
    else if StartsWith(s, "&lt;") then "<" + Unescape(s[4..])
    else if StartsWith(s, "&gt;") then ">" + Unescape(s[4..])
    else if StartsWith(s, "&quot;") then "\"" + Unescape(s[6..])
    else if StartsWith(s, "&#x27;") then "'" + Unescape(s[6..])
    else if StartsWith(s, "&#x2F;") then "/" + Unescape(s[6..])
    else [s[0]] + Unescape(s[1..])
  }

  // ---- the chain of replacements is the one-pass escape ----------------------------

  lemma {:induction false} ReplaceAllConcat(a: string, b: string, c: char, rep: string)
    ensures ReplaceAll(a + b, c, rep) == ReplaceAll(a, c, rep) + ReplaceAll(b, c, rep)
    decreases |a|
  {
    if a != [] {
      var piece := if a[0] == c then rep else [a[0]];
      assert (a + b)[0] == a[0] && (a + b)[1..] == a[1..] + b;
      ReplaceAllConcat(a[1..], b, c, rep);
      calc {
        ReplaceAll(a + b, c, rep);
        piece + ReplaceAll(a[1..] + b, c, rep);
        piece + (ReplaceAll(a[1..], c, rep) + ReplaceAll(b, c, rep));
        (piece + ReplaceAll(a[1..], c, rep)) + ReplaceAll(b, c, rep);
      }
    } else {
      assert a + b == b;
    }
  }

  lemma {:induction false} ReplaceAllAbsent(s: string, c: char, rep: string)
    requires c !in s
    ensures ReplaceAll(s, c, rep) == s
    decreases |s|
  {
    if s != [] {
      ReplaceAllAbsent(s[1..], c, rep);
    }
  }

  lemma ReplaceAllSingle(x: char, c: char, rep: string)
    ensures ReplaceAll([x], c, rep) == if x == c then rep else [x]
  {
    assert [x][1..] == [];
  }

  lemma {:induction false} ReplaceFromConcat(k: nat, a: string, b: string)
    requires k <= 6
    ensures ReplaceFrom(k, a + b) == ReplaceFrom(k, a) + ReplaceFrom(k, b)
    decreases 6 - k
  {
    if k < 6 {
      ReplaceAllConcat(a, b, Patterns[k], Entities[k]);
      ReplaceFromConcat(k + 1, ReplaceAll(a, Patterns[k], Entities[k]), ReplaceAll(b, Patterns[k], Entities[k]));
    }
  }

  lemma ChainConcat(a: string, b: string)
    ensures Chain(a + b) == Chain(a) + Chain(b)
  {
    ReplaceFromConcat(0, a, b);
  }

  /** Calls k..5 leave alone a text holding none of their characters. */
  lemma {:induction false} ReplaceFromAbsent(k: nat, s: string)
    requires k <= 6
    requires forall j :: k <= j < 6 ==> Patterns[j] !in s
    ensures ReplaceFrom(k, s) == s
    decreases 6 - k
  {
    if k < 6 {
      ReplaceAllAbsent(s, Patterns[k], Entities[k]);
      ReplaceFromAbsent(k + 1, s);
    }
  }

  /** Each later replacement leaves the text of an earlier one alone. */
  lemma {:induction false} ReplaceFromChar(k: nat, c: char)
    requires k <= 6
    requires forall j :: 0 <= j < k ==> Patterns[j] != c
    ensures ReplaceFrom(k, [c]) == EscapeChar(c)
    decreases 6 - k
  {
    if k == 6 {
      assert !IsSpecial(c) by {
        assert Patterns[0] != c && Patterns[1] != c && Patterns[2] != c;
        assert Patterns[3] != c && Patterns[4] != c && Patterns[5] != c;
      }
    } else {
      ReplaceAllSingle(c, Patterns[k], Entities[k]);
      if c == Patterns[k] {
        assert Entities[k] == EscapeChar(c);
        ReplaceFromAbsent(k + 1, Entities[k]);
      } else {
        ReplaceFromChar(k + 1, c);
      }
    }
  }

  lemma ChainChar(c: char)
    ensures Chain([c]) == EscapeChar(c)
  {
    ReplaceFromChar(0, c);
  }

  lemma {:induction false} ChainIsEscape(s: string)
    ensures Chain(s) == Escape(s)
    decreases |s|
  {
    if s == [] {
      ReplaceFromAbsent(0, s);
    } else {
      assert s == [s[0]] + s[1..];
      ChainConcat([s[0]], s[1..]);
      ChainChar(s[0]);
      ChainIsEscape(s[1..]);
    }
  }

  // ---- what the source promises of its output --------------------------------------

  lemma SafeConcat(a: string, b: string)
    requires Safe(a) && Safe(b)
    ensures Safe(a + b)
  {
    forall i | 0 <= i < |a + b|
      ensures !IsRaw((a + b)[i]) && ((a + b)[i] == '&' ==> BeginsEntity((a + b)[i..]))
    {
      if i < |a| {
        assert (a + b)[i] == a[i];
        assert (a + b)[i..] == a[i..] + b;
        if a[i] == '&' {
          StartsWithExtends(a[i..], b);
        }
      } else {
        assert (a + b)[i] == b[i - |a|];
        assert (a + b)[i..] == b[i - |a|..];
      }
    }
  }

  lemma StartsWithExtends(s: string, t: string)
    requires BeginsEntity(s)
    ensures BeginsEntity(s + t)
  {
    var u := s + t;
    assert forall p :: StartsWith(s, p) ==> StartsWith(u, p) by {
      forall p | StartsWith(s, p) ensures StartsWith(u, p) {
        assert u[..|p|] == s[..|p|];
      }
    }
  }

  lemma EscapeCharSafe(c: char)
    ensures Safe(EscapeChar(c))
  {
    var e := EscapeChar(c);
    if IsSpecial(c) {
      assert e[0..] == e;
      if c == '&' {
        assert StartsWith(e, "&amp;");
      } else if c == '<' {
        assert StartsWith(e, "&lt;");
      } else if c == '>' {
        assert StartsWith(e, "&gt;");
      } else if c == '"' {
        assert StartsWith(e, "&quot;");
      } else if c == '\'' {
        assert StartsWith(e, "&#x27;");
      } else {
        assert StartsWith(e, "&#x2F;");
      }
    }
  }

  lemma {:induction false} EscapeSafe(s: string)
    ensures Safe(Escape(s))
    decreases |s|
  {
    if s != [] {
      EscapeCharSafe(s[0]);
      EscapeSafe(s[1..]);
      SafeConcat(EscapeChar(s[0]), Escape(s[1..]));
    }
  }

  /** The sanitized text contains none of < > " ' / raw, and each '&' in it starts an entity. */
  lemma SanitizedIsSafe(str: Option<string>)
    ensures Safe(SanitizeHTML(str))
  {
    if str.Some? {
      EscapeSafe(str.value);
    }
  }

  /** Text without any of the six special characters is returned unchanged. */
  lemma {:induction false} SanitizeIdentity(s: string)
    requires forall i :: 0 <= i < |s| ==> !IsSpecial(s[i])
    ensures SanitizeHTML(Some(s)) == s
    decreases |s|
  {
    if s != [] {
      SanitizeIdentity(s[1..]);
      assert EscapeChar(s[0]) == [s[0]];
      assert Escape(s) == [s[0]] + s[1..];
    }
  }

  /** s cannot start with p when they differ at position i. */
  lemma DiffersAt(s: string, p: string, i: nat)
    requires i < |p| && i < |s| && s[i] != p[i]
    ensures !StartsWith(s, p)
  {
    if |p| <= |s| {
      assert s[..|p|][i] == s[i];
    }
  }

  /** Decoding each entity at the front gives its character back; the entities tried
      before it in Unescape differ from it at the position given to DiffersAt. */
  lemma UnescapeAmp(t: string)
    ensures Unescape("&amp;" + t) == "&" + Unescape(t)
  {
    var u := "&amp;" + t;
    assert u[..5] == "&amp;";
    assert u[5..] == t;
  }

  lemma UnescapeLt(t: string)
    ensures Unescape("&lt;" + t) == "<" + Unescape(t)
  {
    var u := "&lt;" + t;
    DiffersAt(u, "&amp;", 1);
    assert u[..4] == "&lt;";
    assert u[4..] == t;
  }

  lemma UnescapeGt(t: string)
    ensures Unescape("&gt;" + t) == ">" + Unescape(t)
  {
    var u := "&gt;" + t;
    DiffersAt(u, "&amp;", 1);
    DiffersAt(u, "&lt;", 1);
    assert u[..4] == "&gt;";
    assert u[4..] == t;
  }

  lemma UnescapeQuot(t: string)
    ensures Unescape("&quot;" + t) == "\"" + Unescape(t)
  {
    var u := "&quot;" + t;
    DiffersAt(u, "&amp;", 1);
    DiffersAt(u, "&lt;", 1);
    DiffersAt(u, "&gt;", 1);
    assert u[..6] == "&quot;";
    assert u[6..] == t;
  }

  lemma UnescapeApos(t: string)
    ensures Unescape("&#x27;" + t) == "'" + Unescape(t)
  {
    var u := "&#x27;" + t;
    DiffersAt(u, "&amp;", 1);
    DiffersAt(u, "&lt;", 1);
    DiffersAt(u, "&gt;", 1);
    DiffersAt(u, "&quot;", 1);
    assert u[..6] == "&#x27;";
    assert u[6..] == t;
  }

  lemma UnescapeSlash(t: string)
    ensures Unescape("&#x2F;" + t) == "/" + Unescape(t)
  {
    var u := "&#x2F;" + t;
    DiffersAt(u, "&amp;", 1);
    DiffersAt(u, "&lt;", 1);
    DiffersAt(u, "&gt;", 1);
    DiffersAt(u, "&quot;", 1);
    DiffersAt(u, "&#x27;", 4);
    assert u[..6] == "&#x2F;";
    assert u[6..] == t;
  }

  /** A character other than '&' opens no entity, so it is decoded as itself. */
  lemma UnescapePlain(c: char, t: string)
    requires c != '&'
    ensures Unescape([c] + t) == [c] + Unescape(t)
  {
    var u := [c] + t;
    DiffersAt(u, "&amp;", 0);
    DiffersAt(u, "&lt;", 0);
    DiffersAt(u, "&gt;", 0);
    DiffersAt(u, "&quot;", 0);
    DiffersAt(u, "&#x27;", 0);
    DiffersAt(u, "&#x2F;", 0);
    assert u[1..] == t;
  }

  /** Decoding one character's escape gives that character back. */
  lemma UnescapeChar(c: char, t: string)
    ensures Unescape(EscapeChar(c) + t) == [c] + Unescape(t)
  {
    if c == '&' {
      UnescapeAmp(t);
    } else if c == '<' {
      UnescapeLt(t);
    } else if c == '>' {
      UnescapeGt(t);
    } else if c == '"' {
      UnescapeQuot(t);
    } else if c == '\'' {
      UnescapeApos(t);
    } else if c == '/' {
      UnescapeSlash(t);
    } else {
      UnescapePlain(c, t);
    }
  }

  /** Sanitizing loses nothing: decoding the entities gives the original text back. */
  lemma {:induction false} SanitizeRoundTrip(s: string)
    ensures Unescape(SanitizeHTML(Some(s))) == s
    decreases |s|
  {
    if s != [] {
      SanitizeRoundTrip(s[1..]);
      UnescapeChar(s[0], Escape(s[1..]));
      assert s == [s[0]] + s[1..];
    }
  }
}
