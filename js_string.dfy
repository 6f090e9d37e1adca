/**
 * The two JavaScript string behaviours the formatting helpers rely on: `String.prototype.trim`
 * (which strips the ECMAScript WhiteSpace and LineTerminator code points from both ends) and the
 * truthiness that `||` tests, under which only the empty string and a missing value are falsy.
 */
module JsString {
  import opened Wrappers

  /** The 25 code points `trim` strips, listed one by one. */
  const WHITE_SPACE: set<char> := {
    '\U{0009}', '\U{000B}', '\U{000C}', '\U{FEFF}', '\U{0020}', '\U{00A0}', '\U{1680}',
    '\U{2000}', '\U{2001}', '\U{2002}', '\U{2003}', '\U{2004}', '\U{2005}', '\U{2006}',
    '\U{2007}', '\U{2008}', '\U{2009}', '\U{200A}', '\U{202F}', '\U{205F}', '\U{3000}',
    '\U{000A}', '\U{000D}', '\U{2028}', '\U{2029}'
  }

  /** ECMAScript WhiteSpace (TAB, VT, FF, ZWNBSP and the space separators) and LineTerminator (LF, CR, LS, PS). */
  predicate IsWhiteSpace(c: char): (b: bool)
    ensures b <==> c in WHITE_SPACE
  {
    || c == '\U{0009}' || c == '\U{000B}' || c == '\U{000C}' || c == '\U{FEFF}'
    || c == '\U{0020}' || c == '\U{00A0}' || c == '\U{1680}'
    || ('\U{2000}' <= c <= '\U{200A}')
    || c == '\U{202F}' || c == '\U{205F}' || c == '\U{3000}'
    || c == '\U{000A}' || c == '\U{000D}' || c == '\U{2028}' || c == '\U{2029}'
  }

  predicate AllWhiteSpace(s: string) {
    forall i :: 0 <= i < |s| ==> IsWhiteSpace(s[i])
  }

  /** The first index at or after `i` that does not hold white space, or `|s|` if there is none. */
  function SkipForward(s: string, i: nat): (j: nat)
    requires i <= |s|
    ensures i <= j <= |s|
    ensures forall k :: i <= k < j ==> IsWhiteSpace(s[k])
    ensures j < |s| ==> !IsWhiteSpace(s[j])
    decreases |s| - i
  {
    if i < |s| && IsWhiteSpace(s[i]) then SkipForward(s, i + 1) else i
  }

  /** The index just past the last character in `[lo, j)` that is not white space, or `lo` if there is none. */
  function SkipBackward(s: string, lo: nat, j: nat): (i: nat)
    requires lo <= j <= |s|
    ensures lo <= i <= j
    ensures forall k :: i <= k < j ==> IsWhiteSpace(s[k])
    ensures i > lo ==> !IsWhiteSpace(s[i - 1])
    decreases j
  {
    if j > lo && IsWhiteSpace(s[j - 1]) then SkipBackward(s, lo, j - 1) else j
  }

  /** `s.trim()`: the piece of `s` from its first to its last character that is not white space. */
  function Trim(s: string): (r: string)
    ensures |r| <= |s|
    ensures r != [] ==> !IsWhiteSpace(r[0]) && !IsWhiteSpace(r[|r| - 1])
  {
    var start := SkipForward(s, 0);
    s[start..SkipBackward(s, start, |s|)]
  }

  /** What `trim` removes at either end is white space and what it keeps is one contiguous piece of `s`. */
  lemma TrimIsInfix(s: string)
    ensures var start := SkipForward(s, 0); var end := SkipBackward(s, start, |s|);
      && Trim(s) == s[start..end]
      && (forall k :: 0 <= k < start ==> IsWhiteSpace(s[k]))
      && (forall k :: end <= k < |s| ==> IsWhiteSpace(s[k]))
  {
  }

  /** `s.trim().length === 0` holds exactly when every character of `s` is white space. */
  lemma TrimEmptyIffAllWhiteSpace(s: string)
    ensures |Trim(s)| == 0 <==> AllWhiteSpace(s)
  {
    var start := SkipForward(s, 0);
    if start < |s| {
      assert !IsWhiteSpace(s[start]);
      assert SkipBackward(s, start, |s|) > start;
    }
  }

  /** Whether the optional string `a` is truthy, which is what `a || b` tests. */
  predicate Truthy(a: Option<string>): (b: bool)
    ensures b <==> a != None && a != Some("")
  {
    a.Some? && a.value != ""
  }

  /** `a || b` where `b` is a string. */
  function Or(a: Option<string>, b: string): (r: string)
    ensures Truthy(a) ==> r == a.value
    ensures !Truthy(a) ==> r == b
  {
    if Truthy(a) then a.value else b
  }
}
