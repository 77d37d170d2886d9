/**
 * ECMAScript's `String.prototype.trim`, the only normalisation the guess
 * receives before it is compared with the answer.
 */
module JsString {

  /**
   * The code points `trim` strips: the WhiteSpace production (tab, vertical
   * tab, form feed, the byte order mark and every space separator of Unicode
   * category Zs) and the LineTerminator production (LF, CR, LS, PS).
   */
  predicate IsWhitespace(c: char)
  {
    || c == '\t' || c == '\U{000B}' || c == '\U{000C}' || c == '\U{FEFF}'
    || c == ' ' || c == '\U{00A0}' || c == '\U{1680}' || ('\U{2000}' <= c <= '\U{200A}')
    || c == '\U{202F}' || c == '\U{205F}' || c == '\U{3000}'
    || c == '\n' || c == '\r' || c == '\U{2028}' || c == '\U{2029}'
  }

  predicate AllWhitespace(s: string)
  {
    forall i :: 0 <= i < |s| ==> IsWhitespace(s[i])
  }

  /** Drops the leading whitespace: what is left is a suffix of `s` that starts with a non-whitespace character. */
  function TrimStart(s: string): (r: string)
    ensures |r| <= |s| && r == s[|s| - |r|..]
    ensures AllWhitespace(s[..|s| - |r|])
    ensures r == [] || !IsWhitespace(r[0])
  {
    if |s| > 0 && IsWhitespace(s[0]) then
      var r := TrimStart(s[1..]);
      assert s[..|s| - |r|] == [s[0]] + s[1..][..|s| - 1 - |r|];
      r
    else
      s
  }

  /** Drops the trailing whitespace: what is left is a prefix of `s` that ends with a non-whitespace character. */
  function TrimEnd(s: string): (r: string)
    ensures |r| <= |s| && r == s[..|r|]
    ensures AllWhitespace(s[|r|..])
    ensures r == [] || !IsWhitespace(r[|r| - 1])
  {
    if |s| > 0 && IsWhitespace(s[|s| - 1]) then
      var r := TrimEnd(s[..|s| - 1]);
      assert s[|r|..] == s[..|s| - 1][|r|..] + [s[|s| - 1]];
      r
    else
      s
  }

  /**
   * `r` is `s` with its whitespace border removed: `s` is a whitespace run,
   * then `r`, then a whitespace run, and `r` neither starts nor ends with
   * whitespace.
   */
  ghost predicate IsTrimmingOf(s: string, r: string)
  {
    exists i, j ::
      && 0 <= i <= j <= |s|
      && s[i..j] == r
      && AllWhitespace(s[..i])
      && AllWhitespace(s[j..])
      && (r == [] || (!IsWhitespace(r[0]) && !IsWhitespace(r[|r| - 1])))
  }

  /** `s.trim()`. */
  function Trim(s: string): (r: string)
    ensures IsTrimmingOf(s, r)
  {
    var t := TrimStart(s);
    var r := TrimEnd(t);
    var i := |s| - |t|;
    var j := i + |r|;
    assert s[i..j] == r;
    assert s[j..] == t[|r|..];
    assert r != [] ==> r[0] == t[0];
    r
  }

  /** Two whitespace borders around the same string cannot differ. */
  lemma {:induction false} TrimmingIsUnique(s: string, r1: string, r2: string)
    requires IsTrimmingOf(s, r1) && IsTrimmingOf(s, r2)
    ensures r1 == r2
  {
    var i1, j1 := TrimmingBounds(s, r1);
    var i2, j2 := TrimmingBounds(s, r2);
    if i1 < j1 {
      NonWhitespaceInside(s, i1, j1, i2, j2);
    } else if i2 < j2 {
      NonWhitespaceInside(s, i2, j2, i1, j1);
    }
  }

  /** Helper: names the two ends of a whitespace border. */
  lemma TrimmingBounds(s: string, r: string) returns (i: int, j: int)
    requires IsTrimmingOf(s, r)
    ensures 0 <= i <= j <= |s| && s[i..j] == r
    ensures AllWhitespace(s[..i]) && AllWhitespace(s[j..])
    ensures i < j ==> !IsWhitespace(s[i]) && !IsWhitespace(s[j - 1])
  {
    i, j :| && 0 <= i <= j <= |s|
           && s[i..j] == r
           && AllWhitespace(s[..i])
           && AllWhitespace(s[j..])
           && (r == [] || (!IsWhitespace(r[0]) && !IsWhitespace(r[|r| - 1])));
    if i < j {
      assert r[0] == s[i] && r[|r| - 1] == s[j - 1];
    }
  }

  /**
   * Helper: a non-empty core `s[i1..j1]` between two whitespace runs pins
   * down every other such split `(i2, j2)` of `s`.
   */
  lemma NonWhitespaceInside(s: string, i1: int, j1: int, i2: int, j2: int)
    requires 0 <= i1 <= j1 <= |s| && 0 <= i2 <= j2 <= |s|
    requires AllWhitespace(s[..i1]) && AllWhitespace(s[j1..])
    requires AllWhitespace(s[..i2]) && AllWhitespace(s[j2..])
    requires i1 < j1 && !IsWhitespace(s[i1]) && !IsWhitespace(s[j1 - 1])
    requires i2 < j2 ==> !IsWhitespace(s[i2]) && !IsWhitespace(s[j2 - 1])
    ensures i1 == i2 && j1 == j2
  {
  }

  /** `trim` is exactly the removal of the whitespace border, in both directions. */
  lemma TrimCharacterization(s: string, r: string)
    ensures IsTrimmingOf(s, r) <==> r == Trim(s)
  {
    if IsTrimmingOf(s, r) {
      TrimmingIsUnique(s, r, Trim(s));
    }
  }

  /** Whitespace around a core that neither starts nor ends with whitespace is all `trim` removes; inner whitespace stays. */
  lemma TrimPadded(before: string, core: string, after: string)
    requires AllWhitespace(before) && AllWhitespace(after)
    requires core != [] && !IsWhitespace(core[0]) && !IsWhitespace(core[|core| - 1])
    ensures Trim(before + core + after) == core
  {
    var s := before + core + after;
    var i, j := |before|, |before| + |core|;
    assert s[i..j] == core && s[..i] == before && s[j..] == after;
    TrimCharacterization(s, core);
  }
}
