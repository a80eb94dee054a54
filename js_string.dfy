/** The two JavaScript string primitives the inline-document code relies on:
    `String.prototype.trim` and a test of a literal regular expression
    (`/@license/.test(s)`), which is a plain substring search. */
module JsString {

  /** The characters `trim` removes: ECMAScript WhiteSpace and LineTerminator. */
  predicate IsWhiteSpace(c: char) {
    || c == '\t' || c == '\n' || c == '\U{B}' || c == '\U{C}' || c == '\r' || c == ' '
    || c == '\U{A0}' || c == '\U{1680}' || ('\U{2000}' <= c <= '\U{200A}')
    || c == '\U{2028}' || c == '\U{2029}' || c == '\U{202F}' || c == '\U{205F}'
    || c == '\U{3000}' || c == '\U{FEFF}'
  }

  ghost predicate AllWhiteSpace(s: string) {
    forall k :: 0 <= k < |s| ==> IsWhiteSpace(s[k])
  }

  /** Neither end of `s` is white space. */
  predicate IsTrimmed(s: string) {
    s == [] || (!IsWhiteSpace(s[0]) && !IsWhiteSpace(s[|s| - 1]))
  }

  /** `r` is `s` with some white space removed from each end: `s` is
      `s[..i] + r + s[i + |r|..]` with both outer parts white space. */
  ghost predicate IsStrippingOf(r: string, s: string, i: int) {
    && 0 <= i <= |s| - |r|
    && r == s[i..i + |r|]
    && AllWhiteSpace(s[..i])
    && AllWhiteSpace(s[i + |r|..])
  }

  /** The length of the white-space run at the start of `s`. */
  function LeadingWhiteSpace(s: string): (n: nat)
    ensures n <= |s|
    ensures AllWhiteSpace(s[..n])
    ensures n < |s| ==> !IsWhiteSpace(s[n])
  {
    if s == [] || !IsWhiteSpace(s[0]) then 0
    else
      var m := LeadingWhiteSpace(s[1..]);
      assert forall k :: 1 <= k < m + 1 ==> s[k] == s[1..][..m][k - 1];
      m + 1
  }

  /** The length of the white-space run at the end of `s`. */
  function TrailingWhiteSpace(s: string): (n: nat)
    ensures n <= |s|
    ensures AllWhiteSpace(s[|s| - n..])
    ensures n < |s| ==> !IsWhiteSpace(s[|s| - 1 - n])
  {
    if s == [] || !IsWhiteSpace(s[|s| - 1]) then 0
    else
      var t := s[..|s| - 1];
      var m := TrailingWhiteSpace(t);
      assert forall k :: |s| - 1 - m <= k < |s| - 1 ==> s[k] == t[|t| - m..][k - (|s| - 1 - m)];
      m + 1
  }

  /** `String.prototype.trim`. */
  function Trim(s: string): (r: string)
    ensures IsTrimmed(r)
    ensures IsStrippingOf(r, s, LeadingWhiteSpace(s))
  {
    var i := LeadingWhiteSpace(s);
    var t := s[i..];
    var n := TrailingWhiteSpace(t);
    var r := t[..|t| - n];
    assert r == s[i..i + |r|];
    assert s[i + |r|..] == t[|t| - n..];
    assert r != [] ==> r[0] == s[i] && r[|r| - 1] == t[|t| - 1 - n];
    r
  }

  /** The leading white-space run ends at the first non-white-space character. */
  lemma LeadingWhiteSpaceEndsAt(s: string, i: int)
    requires 0 <= i < |s| && AllWhiteSpace(s[..i]) && !IsWhiteSpace(s[i])
    ensures LeadingWhiteSpace(s) == i
  {
  }

  /** The trailing white-space run starts after the last non-white-space character. */
  lemma TrailingWhiteSpaceStartsAt(s: string, j: int)
    requires 0 < j <= |s| && AllWhiteSpace(s[j..]) && !IsWhiteSpace(s[j - 1])
    ensures TrailingWhiteSpace(s) == |s| - j
  {
  }

  /** A string of white space alone trims to the empty string. */
  lemma AllWhiteSpaceTrimsToEmpty(s: string)
    requires AllWhiteSpace(s)
    ensures Trim(s) == []
  {
  }

  /** `trim` is determined by what it promises: any white-space stripping of
      `s` whose own ends are not white space is `Trim(s)`. */
  lemma TrimIsUnique(s: string, r: string, i: int)
    requires IsTrimmed(r) && IsStrippingOf(r, s, i)
    ensures r == Trim(s)
  {
    if r == [] {
      assert AllWhiteSpace(s) by {
        forall k | 0 <= k < |s| ensures IsWhiteSpace(s[k]) {
          if k < i { assert s[k] == s[..i][k]; } else { assert s[k] == s[i..][k - i]; }
        }
      }
      AllWhiteSpaceTrimsToEmpty(s);
    } else {
      assert s[i] == r[0];
      LeadingWhiteSpaceEndsAt(s, i);
      var t := s[i..];
      assert t[|r|..] == s[i + |r|..];
      assert t[|r| - 1] == r[|r| - 1];
      TrailingWhiteSpaceStartsAt(t, |r|);
      assert t[..|r|] == r;
    }
  }

  /** Trimming twice is trimming once. */
  lemma TrimIsIdempotent(s: string)
    ensures Trim(Trim(s)) == Trim(s)
  {
    var t := Trim(s);
    assert IsStrippingOf(t, t, 0) by {
      assert t[..0] == [] && t[0..|t|] == t && t[|t|..] == [];
    }
    TrimIsUnique(t, t, 0);
  }

  /** `pat` occurs in `s` at position `i`. */
  predicate OccursAt(s: string, pat: string, i: int) {
    0 <= i <= |s| - |pat| && s[i..i + |pat|] == pat
  }

  /** `/pat/.test(s)` for a pattern without special characters. */
  predicate Contains(s: string, pat: string) {
    exists i | 0 <= i <= |s| - |pat| :: OccursAt(s, pat, i)
  }

  /** `pat` occurs in `s` exactly when `s` splits around a copy of `pat`. */
  lemma ContainsIsSplit(s: string, pat: string)
    ensures Contains(s, pat) <==> exists a, b :: s == a + pat + b
  {
    if Contains(s, pat) {
      var i :| 0 <= i <= |s| - |pat| && OccursAt(s, pat, i);
      assert s == s[..i] + pat + s[i + |pat|..];
    }
    if exists a, b :: s == a + pat + b {
      var a, b :| s == a + pat + b;
      assert OccursAt(s, pat, |a|);
    }
  }
}
