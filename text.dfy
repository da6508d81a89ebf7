/** Whitespace, blankness and trimming of strings.

    Java's String.isBlank uses Character.isWhitespace and String.trim strips
    every character at or below U+0020; the model gives both the characters
    that the two agree on, so that a string is blank exactly when trimming
    empties it. */
module Text {

  /** The characters that both Character.isWhitespace and String.trim treat
      as whitespace: tab, line feed, vertical tab, form feed, carriage
      return, the separators U+001C to U+001F, and space. */
  predicate IsWhitespace(c: char) {
    '\t' <= c <= '\r' || '\U{1C}' <= c <= ' '
  }

  /** String.isBlank: empty, or whitespace only. */
  predicate IsBlank(s: string) {
    s == [] || (IsWhitespace(s[0]) && IsBlank(s[1..]))
  }

  /** A string is blank exactly when every character is whitespace. */
  lemma {:induction false} BlankIffAllWhitespace(s: string)
    ensures IsBlank(s) <==> forall i | 0 <= i < |s| :: IsWhitespace(s[i])
  {
    if s != [] {
      BlankIffAllWhitespace(s[1..]);
      assert forall i | 1 <= i < |s| :: s[1..][i - 1] == s[i];
    }
  }

  /** s with its leading whitespace removed: a suffix of s that is empty or
      starts with a character that is not whitespace. */
  function TrimStart(s: string): (r: string)
    ensures |r| <= |s| && r == s[|s| - |r|..]
    ensures r == [] || !IsWhitespace(r[0])
  {
    if |s| > 0 && IsWhitespace(s[0]) then TrimStart(s[1..]) else s
  }

  /** s with its trailing whitespace removed: a prefix of s that is empty or
      ends with a character that is not whitespace. */
  function TrimEnd(s: string): (r: string)
    ensures |r| <= |s| && r == s[..|r|]
    ensures r == [] || !IsWhitespace(r[|r| - 1])
  {
    if |s| > 0 && IsWhitespace(s[|s| - 1]) then TrimEnd(s[..|s| - 1]) else s
  }

  /** String.trim: leading and trailing whitespace removed. What is left is
      empty exactly for a blank string, and otherwise neither starts nor
      ends with whitespace. */
  function Trim(s: string): (r: string)
    ensures |r| <= |s|
    ensures r == [] <==> IsBlank(s)
    ensures r != [] ==> !IsWhitespace(r[0]) && !IsWhitespace(r[|r| - 1])
  {
    BlankIffTrimStartEmpty(s);
    var t := TrimStart(s);
    if t != [] then TrimEndKeepsHead(t); TrimEnd(t) else TrimEnd(t)
  }

  /** Leading whitespace is all that TrimStart removes. */
  lemma {:induction false} TrimStartRemovesBlank(s: string)
    ensures IsBlank(s[..|s| - |TrimStart(s)|])
  {
    if |s| > 0 && IsWhitespace(s[0]) {
      TrimStartRemovesBlank(s[1..]);
      var k := |s| - |TrimStart(s)|;
      assert s[..k][1..] == s[1..][..k - 1];
    } else {
      assert s[..0] == [];
    }
  }

  /** Trailing whitespace is all that TrimEnd removes. */
  lemma {:induction false} TrimEndRemovesBlank(s: string)
    ensures IsBlank(s[|TrimEnd(s)|..])
  {
    if |s| > 0 && IsWhitespace(s[|s| - 1]) {
      var u := s[..|s| - 1];
      TrimEndRemovesBlank(u);
      var k := |TrimEnd(s)|;
      BlankIffAllWhitespace(u[k..]);
      BlankIffAllWhitespace(s[k..]);
      assert s[k..] == u[k..] + [s[|s| - 1]];
    } else {
      assert s[|s|..] == [];
    }
  }

  /** A blank string trims to nothing at its start, and only a blank one. */
  lemma {:induction false} BlankIffTrimStartEmpty(s: string)
    ensures IsBlank(s) <==> TrimStart(s) == []
  {
    if |s| > 0 && IsWhitespace(s[0]) {
      BlankIffTrimStartEmpty(s[1..]);
    }
  }

  /** TrimEnd keeps a first character that is not whitespace. */
  lemma {:induction false} TrimEndKeepsHead(s: string)
    requires s != [] && !IsWhitespace(s[0])
    ensures TrimEnd(s) != [] && TrimEnd(s)[0] == s[0]
  {
    if |s| > 1 && IsWhitespace(s[|s| - 1]) {
      TrimEndKeepsHead(s[..|s| - 1]);
    }
  }

  /** Trimming twice is trimming once. */
  lemma TrimIdempotent(s: string)
    ensures Trim(Trim(s)) == Trim(s)
  {
    var r := Trim(s);
    assert TrimStart(r) == r;
    assert TrimEnd(r) == r;
  }
}
