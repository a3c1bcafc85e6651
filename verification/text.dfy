/**
 * Strings as the block sees them, and `String.prototype.trim`, which the
 * blank check of `validate` and the fragment builder rely on.
 */
module Text {

  /**
   * The code points ECMAScript's `trim` removes: the WhiteSpace class
   * (TAB, VT, FF, ZWNBSP and the Unicode Zs category) and the
   * LineTerminator class (LF, CR, LS, PS).
   */
  predicate IsWhitespace(c: char)
  {
    || c == '\t' || c == '\n' || c == '\U{000B}' || c == '\U{000C}' || c == '\r'
    || c == ' ' || c == '\U{00A0}' || c == '\U{1680}'
    || ('\U{2000}' <= c <= '\U{200A}')
    || c == '\U{2028}' || c == '\U{2029}' || c == '\U{202F}' || c == '\U{205F}'
    || c == '\U{3000}' || c == '\U{FEFF}'
  }

  /** A string with no character other than whitespace (the empty string included). */
  predicate IsBlank(s: string)
  {
    forall i :: 0 <= i < |s| ==> IsWhitespace(s[i])
  }

  /** Drops the leading whitespace: what is left is a suffix of `s` that starts with a non-blank. */
  function TrimStart(s: string): (r: string)
    ensures |r| <= |s| && r == s[|s| - |r|..]
    ensures IsBlank(s[..|s| - |r|])
    ensures r == [] || !IsWhitespace(r[0])
  {
    if s == [] || !IsWhitespace(s[0]) then s else TrimStart(s[1..])
  }

  /** Drops the trailing whitespace: what is left is a prefix of `s` that ends with a non-blank. */
  function TrimEnd(s: string): (r: string)
    ensures |r| <= |s| && r == s[..|r|]
    ensures IsBlank(s[|r|..])
    ensures r == [] || !IsWhitespace(r[|r| - 1])
  {
    if s == [] || !IsWhitespace(s[|s| - 1]) then s else TrimEnd(s[..|s| - 1])
  }

  /**
   * `s.trim()`: the slice of `s` left once its leading and trailing
   * whitespace is removed. The result is empty exactly when `s` is blank;
   * otherwise it neither starts nor ends with whitespace.
   */
  function Trim(s: string): (r: string)
    ensures r == [] <==> IsBlank(s)
    ensures r == [] || (!IsWhitespace(r[0]) && !IsWhitespace(r[|r| - 1]))
    ensures exists i, j :: 0 <= i <= j <= |s| && r == s[i..j] && IsBlank(s[..i]) && IsBlank(s[j..])
  {
    var front := TrimStart(s);
    var r := TrimEnd(front);
    TrimIsSlice(s, front, r);
    assert r == [] ==> IsBlank(s) by {
      if r == [] {
        assert s == s[..|s| - |front|] + front;
        assert IsBlank(front) by { assert front[|r|..] == front; }
      }
    }
    r
  }

  /** A blank prefix cut off, then a blank suffix cut off: what remains is a slice between blanks. */
  lemma TrimIsSlice(s: string, front: string, r: string)
    requires |front| <= |s| && front == s[|s| - |front|..] && IsBlank(s[..|s| - |front|])
    requires |r| <= |front| && r == front[..|r|] && IsBlank(front[|r|..])
    ensures exists i, j :: 0 <= i <= j <= |s| && r == s[i..j] && IsBlank(s[..i]) && IsBlank(s[j..])
  {
    var i := |s| - |front|;
    var j := i + |r|;
    assert s[i..j] == r;
    assert s[j..] == front[|r|..];
  }
}
