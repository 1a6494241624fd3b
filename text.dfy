/**
 * The string operations the pages use: `toLowerCase`/`toUpperCase` (as ASCII case maps),
 * `trim` (with the ECMAScript white-space and line-terminator set) and `includes`.
 */
module Text {

  function ToUpperChar(c: char): char
  {
    if 'a' <= c <= 'z' then (c as int - 32) as char else c
  }

  function ToLowerChar(c: char): char
  {
    if 'A' <= c <= 'Z' then (c as int + 32) as char else c
  }

  /** `s.toLowerCase()`, ASCII letters only. */
  function ToLower(s: string): (r: string)
    ensures |r| == |s|
    ensures forall i :: 0 <= i < |s| ==> r[i] == ToLowerChar(s[i])
  {
    if s == [] then [] else [ToLowerChar(s[0])] + ToLower(s[1..])
  }

  /**
   * The characters `String.prototype.trim` and `parseInt` skip: ECMA-262's WhiteSpace
   * (TAB, VT, FF, ZWNBSP and the Unicode space separators) and LineTerminator (LF, CR, LS, PS).
   */
  predicate IsWhiteSpace(c: char)
  {
    || c == '\t' || c == '\U{000B}' || c == '\U{000C}' || c == ' ' || c == '\U{00A0}' || c == '\U{FEFF}'
    || c == '\U{1680}' || ('\U{2000}' <= c <= '\U{200A}') || c == '\U{202F}' || c == '\U{205F}' || c == '\U{3000}'
    || c == '\n' || c == '\r' || c == '\U{2028}' || c == '\U{2029}'
  }

  /** `s.trimStart()`: drops the leading white space. */
  function TrimStart(s: string): (r: string)
    ensures |r| <= |s| && r == s[|s| - |r|..]
    ensures forall i :: 0 <= i < |s| - |r| ==> IsWhiteSpace(s[i])
    ensures r == [] || !IsWhiteSpace(r[0])
  {
    if s != [] && IsWhiteSpace(s[0]) then TrimStart(s[1..]) else s
  }

  /** `s.trimEnd()`: drops the trailing white space. */
  function TrimEnd(s: string): (r: string)
    ensures |r| <= |s| && r == s[..|r|]
    ensures forall i :: |r| <= i < |s| ==> IsWhiteSpace(s[i])
    ensures r == [] || !IsWhiteSpace(r[|r| - 1])
  {
    if s != [] && IsWhiteSpace(s[|s| - 1]) then TrimEnd(s[..|s| - 1]) else s
  }

  /** `s.trim()`. */
  function Trim(s: string): string
  {
    TrimEnd(TrimStart(s))
  }

  /** A string trims to nothing exactly when every character of it is white space. */
  lemma TrimEmpty(s: string)
    ensures Trim(s) == [] <==> forall i :: 0 <= i < |s| ==> IsWhiteSpace(s[i])
  {
  }

  /** Lower-casing does not change which characters are white space, so neither does it change
      whether a string trims to nothing. */
  lemma TrimEmptyIgnoresCase(s: string)
    ensures Trim(ToLower(s)) == [] <==> Trim(s) == []
  {
    TrimEmpty(s);
    TrimEmpty(ToLower(s));
    forall i | 0 <= i < |s| ensures IsWhiteSpace(ToLower(s)[i]) == IsWhiteSpace(s[i]) {
      LowerKeepsWhiteSpace(s[i]);
    }
  }

  lemma LowerKeepsWhiteSpace(c: char)
    ensures IsWhiteSpace(ToLowerChar(c)) == IsWhiteSpace(c)
  {
    if 'A' <= c <= 'Z' {
      assert 'a' <= ToLowerChar(c) <= 'z';
    }
  }

  /** `text.includes(pat)`: `pat` occurs in `text` as a contiguous block. */
  predicate Contains(text: string, pat: string)
    decreases |text|
  {
    |pat| <= |text| && (text[..|pat|] == pat || (text != [] && Contains(text[1..], pat)))
  }

  /** `pat` occurs in `text` starting at offset `i`. */
  ghost predicate OccursAt(text: string, pat: string, i: int)
  {
    0 <= i && i + |pat| <= |text| && text[i..i + |pat|] == pat
  }

  /** `Contains` is occurrence at some offset. */
  lemma {:induction false} ContainsAt(text: string, pat: string)
    ensures Contains(text, pat) <==> exists i :: OccursAt(text, pat, i)
    decreases |text|
  {
    if |pat| <= |text| && text[..|pat|] == pat {
      assert OccursAt(text, pat, 0);
    } else if |pat| <= |text| && text != [] {
      ContainsAt(text[1..], pat);
      if exists i :: OccursAt(text, pat, i) {
        var i :| OccursAt(text, pat, i);
        assert i != 0;
        assert text[1..][i - 1..i - 1 + |pat|] == text[i..i + |pat|];
        assert OccursAt(text[1..], pat, i - 1);
      }
      if Contains(text[1..], pat) {
        var j :| OccursAt(text[1..], pat, j);
        assert text[j + 1..j + 1 + |pat|] == text[1..][j..j + |pat|];
        assert OccursAt(text, pat, j + 1);
      }
    }
  }

  /** A block of a block of `text` is a block of `text`. */
  lemma ContainsTransitive(text: string, mid: string, pat: string)
    requires Contains(text, mid) && Contains(mid, pat)
    ensures Contains(text, pat)
  {
    ContainsAt(text, mid);
    ContainsAt(mid, pat);
    var i :| OccursAt(text, mid, i);
    var j :| OccursAt(mid, pat, j);
    forall k | 0 <= k < |pat| ensures text[i + j + k] == pat[k] {
      assert pat[k] == mid[j..j + |pat|][k] == mid[j + k];
      assert mid[j + k] == text[i..i + |mid|][j + k] == text[i + (j + k)];
    }
    assert text[i + j..i + j + |pat|] == pat;
    assert OccursAt(text, pat, i + j);
    ContainsAt(text, pat);
  }
}
