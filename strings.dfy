/**
 * The part of Go's `strings` package the converter uses, on `seq<char>`:
 * `ToLower` (ASCII letters), `Contains`, `TrimSuffix` and `TrimSpace`.
 */
module Strings {

  /** Lower-cases an ASCII letter and keeps every other character. */
  function LowerChar(c: char): (r: char)
    ensures 'A' <= c <= 'Z' ==> 'a' <= r <= 'z' && r as int - c as int == 32
    ensures !('A' <= c <= 'Z') ==> r == c
  {
    if 'A' <= c <= 'Z' then (c as int + 32) as char else c
  }

  function ToLower(s: string): (r: string)
    ensures |r| == |s|
    ensures forall i :: 0 <= i < |s| ==> r[i] == LowerChar(s[i])
  {
    seq(|s|, i requires 0 <= i < |s| => LowerChar(s[i]))
  }

  predicate HasSuffix(s: string, suffix: string) {
    |suffix| <= |s| && s[|s| - |suffix|..] == suffix
  }

  /** A string that ends with `a + b` ends with `b`. */
  lemma SuffixOfSuffix(s: string, a: string, b: string)
    requires HasSuffix(s, a + b)
    ensures HasSuffix(s, b)
  {
    assert s[|s| - |b|..] == s[|s| - |a + b|..][|a|..];
  }

  /** `strings.TrimSuffix`: drops `suffix` when `s` ends with it. */
  function TrimSuffix(s: string, suffix: string): (r: string)
    ensures HasSuffix(s, suffix) ==> r + suffix == s
    ensures !HasSuffix(s, suffix) ==> r == s
  {
    if HasSuffix(s, suffix) then s[..|s| - |suffix|] else s
  }

  /** `sub` occurs in `s` starting at index `i`. */
  predicate OccursAt(s: string, sub: string, i: int) {
    0 <= i && i + |sub| <= |s| && s[i..i + |sub|] == sub
  }

  /** `strings.Contains`. */
  predicate Contains(s: string, sub: string)
    ensures Contains(s, sub) ==> |sub| <= |s|
    ensures sub == [] ==> Contains(s, sub)
  {
    assert sub == [] ==> OccursAt(s, sub, 0);
    exists i :: 0 <= i <= |s| && OccursAt(s, sub, i)
  }

  /** `unicode.IsSpace`: the characters with the Unicode White_Space property. */
  predicate IsSpace(c: char)
    ensures IsSpace(c) ==> '\t' <= c <= '\U{3000}'
  {
    || ('\t' <= c <= '\r')
    || c == ' '
    || c == '\U{85}'
    || c == '\U{A0}'
    || c == '\U{1680}'
    || ('\U{2000}' <= c <= '\U{200A}')
    || c == '\U{2028}'
    || c == '\U{2029}'
    || c == '\U{202F}'
    || c == '\U{205F}'
    || c == '\U{3000}'
  }

  /** Among the ASCII characters, white space is tab, line feed, vertical tab, form feed, carriage return and space. */
  lemma AsciiSpace(c: char)
    requires c < '\U{80}'
    ensures IsSpace(c) <==> c in ['\t', '\n', '\U{0B}', '\U{0C}', '\r', ' ']
  {
  }

  /** The first index at or after `i` whose character is not dropped, or `|s|`. */
  function SkipFrom(s: string, drop: char -> bool, i: nat): (j: nat)
    requires i <= |s|
    ensures i <= j <= |s|
    ensures forall k :: i <= k < j ==> drop(s[k])
    ensures j < |s| ==> !drop(s[j])
    decreases |s| - i
  {
    if i < |s| && drop(s[i]) then SkipFrom(s, drop, i + 1) else i
  }

  /** The end of `s[lo..j]` once dropped characters are taken off its end. */
  function SkipBack(s: string, drop: char -> bool, lo: nat, j: nat): (r: nat)
    requires lo <= j <= |s|
    ensures lo <= r <= j
    ensures forall k :: r <= k < j ==> drop(s[k])
    ensures r > lo ==> !drop(s[r - 1])
    decreases j - lo
  {
    if lo < j && drop(s[j - 1]) then SkipBack(s, drop, lo, j - 1) else j
  }

  /**
   * `strings.TrimSpace`: skips white space from the start, then from the end back to
   * that point, and returns what lies between.
   */
  function TrimSpace(s: string): (r: string)
    ensures exists lo: nat, hi: nat :: lo <= hi <= |s| && r == s[lo..hi] && SpaceOutside(s, lo, hi)
    ensures r != [] ==> !IsSpace(r[0]) && !IsSpace(r[|r| - 1])
  {
    var lo := SkipFrom(s, IsSpace, 0);
    var hi := SkipBack(s, IsSpace, lo, |s|);
    assert SpaceOutside(s, lo, hi);
    s[lo..hi]
  }

  /** Every character of `s` before `lo` and from `hi` on is white space. */
  predicate SpaceOutside(s: string, lo: nat, hi: nat)
    requires lo <= hi <= |s|
  {
    (forall k :: 0 <= k < lo ==> IsSpace(s[k])) && (forall k :: hi <= k < |s| ==> IsSpace(s[k]))
  }
}
