/**
 * The JavaScript string operations the service relies on: `includes`,
 * `toUpperCase` and `trim`.
 */
module Text {
  import opened Wrappers

  /** `sub` occurs in `s` starting at index `i`. */
  predicate OccursAt(s: string, sub: string, i: nat) {
    i + |sub| <= |s| && s[i..i + |sub|] == sub
  }

  predicate StartsWith(s: string, prefix: string) {
    OccursAt(s, prefix, 0)
  }

  /** The leftmost occurrence of `sub` in `s` at or after `from` (`String.prototype.indexOf`). */
  function IndexFrom(s: string, sub: string, from: nat): (r: Option<nat>)
    decreases |s| + 1 - from
    ensures r.Some? ==> from <= r.value && OccursAt(s, sub, r.value)
    ensures forall j: nat :: from <= j && (r.None? || j < r.value) ==> !OccursAt(s, sub, j)
  {
    if from + |sub| > |s| then None
    else if s[from..from + |sub|] == sub then Some(from)
    else IndexFrom(s, sub, from + 1)
  }

  /** `String.prototype.includes`. */
  function Contains(s: string, sub: string): (b: bool)
    ensures b <==> exists i: nat :: OccursAt(s, sub, i)
  {
    IndexFrom(s, sub, 0).Some?
  }

  /** `toUpperCase` on one character, for the ASCII letters. */
  function UpperChar(c: char): (u: char)
    ensures 'a' <= c <= 'z' ==> u as int == c as int - 32
    ensures !('a' <= c <= 'z') ==> u == c
  {
    if 'a' <= c <= 'z' then (c as int - 32) as char else c
  }

  function Upper(s: string): (r: string)
    ensures |r| == |s|
    ensures forall i :: 0 <= i < |s| ==> r[i] == UpperChar(s[i])
  {
    seq(|s|, i requires 0 <= i < |s| => UpperChar(s[i]))
  }

  /** The characters `trim` removes: ECMAScript WhiteSpace and LineTerminator. */
  predicate IsJsSpace(c: char) {
    c == '\t' || c == '\n' || c == '\U{B}' || c == '\U{C}' || c == '\r' || c == ' '
    || c == '\U{A0}' || c == '\U{1680}' || ('\U{2000}' <= c <= '\U{200A}')
    || c == '\U{2028}' || c == '\U{2029}' || c == '\U{202F}' || c == '\U{205F}'
    || c == '\U{3000}' || c == '\U{FEFF}'
  }

  /** The first index at or after `i` that does not hold a space. */
  function SpaceRunEnd(s: string, i: nat): (a: nat)
    requires i <= |s|
    decreases |s| - i
    ensures i <= a <= |s|
    ensures forall j :: i <= j < a ==> IsJsSpace(s[j])
    ensures a == |s| || !IsJsSpace(s[a])
  {
    if i == |s| || !IsJsSpace(s[i]) then i else SpaceRunEnd(s, i + 1)
  }

  /** The end of `s[lo..b]` once its trailing spaces are dropped. */
  function SpaceRunStart(s: string, lo: nat, b: nat): (e: nat)
    requires lo <= b <= |s|
    decreases b
    ensures lo <= e <= b
    ensures forall j :: e <= j < b ==> IsJsSpace(s[j])
    ensures e == lo || !IsJsSpace(s[e - 1])
  {
    if b == lo || !IsJsSpace(s[b - 1]) then b else SpaceRunStart(s, lo, b - 1)
  }

  /** `String.prototype.trim`: drops the leading and the trailing spaces. */
  function Trim(s: string): (r: string)
    ensures exists a, b :: (0 <= a <= b <= |s| && r == s[a..b]
      && (forall j :: 0 <= j < a ==> IsJsSpace(s[j]))
      && (forall j :: b <= j < |s| ==> IsJsSpace(s[j])))
    ensures r != [] ==> !IsJsSpace(r[0]) && !IsJsSpace(r[|r| - 1])
  {
    var a := SpaceRunEnd(s, 0);
    var b := SpaceRunStart(s, a, |s|);
    assert s[a..b] != [] ==> s[a..b][0] == s[a] && s[a..b][b - a - 1] == s[b - 1];
    s[a..b]
  }

  /** An occurrence in a slice is an occurrence in the whole string. */
  lemma OccursInSlice(s: string, a: nat, e: nat, w: string, i: nat)
    requires a <= e <= |s| && OccursAt(s[a..e], w, i)
    ensures OccursAt(s, w, a + i)
  {
    var t := s[a..e];
    assert forall k :: 0 <= k < |w| ==> s[a + i + k] == t[i + k] == w[k];
  }

  /** An occurrence inside the bounds of a slice is an occurrence in the slice. */
  lemma OccursInWhole(s: string, a: nat, e: nat, w: string, i: nat)
    requires a <= i && i + |w| <= e <= |s| && OccursAt(s, w, i)
    ensures OccursAt(s[a..e], w, i - a)
  {
    var t := s[a..e];
    assert forall k :: 0 <= k < |w| ==> t[i - a + k] == s[i + k] == w[k];
  }

  /** A space keeps its case. */
  lemma UpperSpace(c: char)
    requires IsJsSpace(c)
    ensures UpperChar(c) == c
  {
  }

  /**
   * Upper-casing keeps spaces apart from the rest, so a word without spaces
   * occurs in the upper-cased trimmed string exactly when it occurs in the
   * upper-cased whole string.
   */
  lemma ContainsUpperTrim(s: string, w: string)
    requires |w| > 0
    requires forall x :: 0 <= x < |w| ==> !IsJsSpace(w[x])
    ensures Contains(Upper(Trim(s)), w) <==> Contains(Upper(s), w)
  {
    var a := SpaceRunEnd(s, 0);
    var e := SpaceRunStart(s, a, |s|);
    var us := Upper(s);
    UpperSlice(s, a, e);
    if Contains(us[a..e], w) {
      var i: nat :| OccursAt(us[a..e], w, i);
      OccursInSlice(us, a, e, w, i);
    }
    if Contains(us, w) {
      var i: nat :| OccursAt(us, w, i);
      InsideTrimmed(s, w, i);
      OccursInWhole(us, a, e, w, i);
    }
  }

  lemma UpperSlice(s: string, a: nat, e: nat)
    requires a <= e <= |s|
    ensures Upper(s[a..e]) == Upper(s)[a..e]
  {
  }

  /** Under an occurrence of a space-free word in the upper-cased string there is no space. */
  lemma NoSpaceUnder(s: string, w: string, i: nat, j: nat)
    requires forall x :: 0 <= x < |w| ==> !IsJsSpace(w[x])
    requires OccursAt(Upper(s), w, i)
    requires i <= j < i + |w|
    ensures !IsJsSpace(s[j])
  {
    var us := Upper(s);
    assert us[j] == us[i..i + |w|][j - i] == w[j - i];
    if IsJsSpace(s[j]) {
      UpperSpace(s[j]);
    }
  }

  /** An occurrence of a space-free word in the upper-cased string lies between the trimmed ends. */
  lemma InsideTrimmed(s: string, w: string, i: nat)
    requires |w| > 0
    requires forall x :: 0 <= x < |w| ==> !IsJsSpace(w[x])
    requires OccursAt(Upper(s), w, i)
    ensures SpaceRunEnd(s, 0) <= i
    ensures i + |w| <= SpaceRunStart(s, SpaceRunEnd(s, 0), |s|)
  {
    var a := SpaceRunEnd(s, 0);
    var e := SpaceRunStart(s, a, |s|);
    NoSpaceUnder(s, w, i, i);
    NoSpaceUnder(s, w, i, i + |w| - 1);
  }
}
